/** Establishing links (reference/RNS/Link.py) between any number of initiators and destinations over a network
    that loses, repeats, delays and rewrites packets. Cryptography is symbolic: a key pair is its owner, a
    Diffie-Hellman secret the pair of public keys, and a signature or sealed packet what was signed or sealed. */
module LinkHandshake {
  import opened Prelude

  const MODE_AES256_CBC: nat := 1
  const MODE_DEFAULT: nat := MODE_AES256_CBC

  /** Ephemeral public keys: of the i-th initiating link, of the j-th responding link, of a party not modelled. */
  datatype Pub = InitiatorPub(i: nat) | ResponderPub(j: nat) | OtherPub(x: nat)

  /** The hash over destination and keys of a link request; signalling bytes are left out of it. */
  datatype LinkId = LinkId(destination: nat, pub: Pub, sigPub: Pub)

  datatype Key = Key(secret: set<Pub>, salt: LinkId, mode: nat)

  /** What follows the keys in a request or the key in a proof, by the length of the packet. */
  datatype Tail = NoTail | Signalling(mtu: nat, mode: nat) | OddTail(oddMode: nat) | Short

  datatype Signature = Junk | Signed(destination: nat, linkId: LinkId, pub: Pub, tail: Tail)

  datatype Proof = Proof(signature: Signature, pub: Pub, tail: Tail)

  datatype Status = Pending | Handshake | Active | Stale | Closed

  datatype Link = Link(initiator: bool, destination: nat, status: Status, own: Option<Pub>, peer: Option<Pub>,
                       linkId: LinkId, mode: nat, mtu: nat, key: Option<Key>)

  // ---- one link ----

  function MtuOr(mtu: nat): nat {
    if mtu == 0 then MTU else mtu
  }

  /** __init__ of an initiator, its keys and link id fixed. */
  function Initiate(i: nat, destination: nat): Link {
    var pub := InitiatorPub(i);
    Link(true, destination, Pending, Some(pub), None, LinkId(destination, pub, pub), MODE_DEFAULT, MTU, None)
  }

  /** handshake: only from PENDING and with the own key still there. */
  function DoHandshake(l: Link): Link {
    if l.status.Pending? && l.own.Some? && l.peer.Some? then
      l.(status := Handshake, key := Some(Key({l.own.value, l.peer.value}, l.linkId, l.mode)))
    else l
  }

  /** validate_request: the responding link, or None where the request is refused. Every mode but the one
      enabled raises, in handshake or in prove. */
  function Respond(j: nat, destination: nat, pub: Pub, sigPub: Pub, tail: Tail): Option<Link> {
    if tail.OddTail? || tail.Short? then None
    else
      var mode := if tail.Signalling? then tail.mode else MODE_DEFAULT;
      var mtu := if tail.Signalling? then MtuOr(tail.mtu) else MTU;
      if mode != MODE_AES256_CBC then None
      else
        Some(DoHandshake(Link(false, destination, Pending, Some(ResponderPub(j)), Some(pub),
                              LinkId(destination, pub, sigPub), mode, mtu, None)))
  }

  /** prove: what the responder signs. */
  function Signs(l: Link, pub: Pub): Signature {
    Signed(l.destination, l.linkId, pub, Signalling(l.mtu, l.mode))
  }

  function ProofMode(tail: Tail): nat {
    match tail
    case Signalling(_, mode) => mode
    case OddTail(mode) => mode
    case _ => MODE_DEFAULT
  }

  /** validate_proof, and whether an RTT packet goes out. */
  function ValidateProof(l: Link, p: Proof): (r: (Link, bool)) {
    if !l.status.Pending? then (l, false)
    else if ProofMode(p.tail) != l.mode then (l.(status := Closed), false)
    else if !l.initiator || p.tail.OddTail? || p.tail.Short? then (l, false)
    else
      var h := DoHandshake(l.(peer := Some(p.pub)));
      if p.signature != Signed(l.destination, l.linkId, p.pub, p.tail) then (h, false)
      else if !h.status.Handshake? then (h.(status := Closed), false)
      else (h.(mtu := if p.tail.Signalling? then MtuOr(p.tail.mtu) else MTU, status := Active), true)
  }

  /** receive of an RTT packet sealed under `key`: None is a packet that no key opens. One that opens but does not
      unpack tears the link down. */
  function ReceiveRtt(l: Link, key: Option<Key>, unpacks: bool): Link {
    if l.status.Closed? then l
    else if l.initiator || key.None? || key != l.key then Receive(l)
    else if unpacks then l.(status := Active)
    else Close(l)
  }

  /** receive of anything else. */
  function Receive(l: Link): Link {
    if l.status.Stale? then l.(status := Active) else l
  }

  /** teardown, teardown_packet and the watchdog's timeouts. */
  function Close(l: Link): Link {
    l.(status := Closed, own := None, key := None)
  }

  /** The watchdog finds no traffic. */
  function GoStale(l: Link): Link {
    if l.status.Active? then l.(status := Stale) else l
  }

  // ---- the network ----

  /** All links, each responder also as it was created, what responders have signed, and the key of the one
      RTT packet an initiator has sent, if it has. */
  datatype System = System(initiators: seq<Link>, responders: seq<Link>, sessions: seq<Link>,
                           signatures: seq<Signature>, rtts: seq<Option<Key>>)

  datatype Event =
    | Open(destination: nat)
    | DeliverRequest(to: nat, pub: Pub, sigPub: Pub, tail: Tail)
    | DeliverProof(i: nat, proof: Proof)
    | DeliverRtt(j: nat, key: Option<Key>, unpacks: bool)
    | Traffic(initiator: bool, k: nat)
    | Idle(initiator: bool, k: nat)
    | Shut(initiator: bool, k: nat)

  const Empty := System([], [], [], [], [])

  /** An RTT packet that somebody could have sealed: an initiator did, or the responder's peer is a party not modelled. */
  predicate Sealed(s: System, j: nat, key: Key)
    requires j < |s.responders|
  {
    Some(key) in s.rtts || (s.responders[j].peer.Some? && s.responders[j].peer.value.OtherPub?)
  }

  function Touch(s: System, initiator: bool, k: nat, f: Link -> Link): System {
    if initiator && k < |s.initiators| then s.(initiators := s.initiators[k := f(s.initiators[k])])
    else if !initiator && k < |s.responders| then s.(responders := s.responders[k := f(s.responders[k])])
    else s
  }

  function Step(s: System, e: Event): System {
    match e
    case Open(destination) =>
      s.(initiators := s.initiators + [Initiate(|s.initiators|, destination)], rtts := s.rtts + [None])
    case DeliverRequest(to, pub, sigPub, tail) =>
      var l := Respond(|s.responders|, to, pub, sigPub, tail);
      if l.None? then s
      else s.(responders := s.responders + [l.value], sessions := s.sessions + [l.value],
              signatures := s.signatures + [Signs(l.value, ResponderPub(|s.responders|))])
    case DeliverProof(i, proof) =>
      if i < |s.initiators| && i < |s.rtts| && (proof.signature.Junk? || proof.signature in s.signatures) then
        var r := ValidateProof(s.initiators[i], proof);
        s.(initiators := s.initiators[i := r.0], rtts := if r.1 then s.rtts[i := r.0.key] else s.rtts)
      else s
    case DeliverRtt(j, key, unpacks) =>
      if j < |s.responders| && (key.None? || Sealed(s, j, key.value)) then
        s.(responders := s.responders[j := ReceiveRtt(s.responders[j], key, unpacks)])
      else s
    case Traffic(initiator, k) => Touch(s, initiator, k, Receive)
    case Idle(initiator, k) => Touch(s, initiator, k, GoStale)
    case Shut(initiator, k) => Touch(s, initiator, k, Close)
  }

  function Run(events: seq<Event>): System {
    if events == [] then Empty else Step(Run(events[..|events| - 1]), events[|events| - 1])
  }

  predicate Up(l: Link) {
    l.status.Active? || l.status.Stale?
  }

  // ---- invariant ----

  ghost predicate SessionOk(l: Link, j: nat) {
    && !l.initiator && l.status.Handshake? && l.own == Some(ResponderPub(j)) && l.peer.Some?
    && l.mode == MODE_DEFAULT && l.mtu != 0
    && l.linkId.destination == l.destination && l.linkId.pub == l.peer.value
    && l.key == Some(Key({ResponderPub(j), l.peer.value}, l.linkId, l.mode))
  }

  ghost predicate ResponderOk(l: Link, session: Link, rtts: seq<Option<Key>>) {
    && !l.initiator && !l.status.Pending?
    && l.peer == session.peer && l.linkId == session.linkId && l.destination == session.destination
    && l.mode == session.mode && l.mtu == session.mtu
    && (if l.status.Closed? then l.key.None? else l.key == session.key)
    && (Up(l) ==> session.key in rtts || (l.peer.Some? && l.peer.value.OtherPub?))
  }

  /** Link l of initiator i and session number j mean the same link. */
  ghost predicate Agrees(l: Link, session: Link, j: nat) {
    && l.peer == Some(ResponderPub(j)) && session.peer == Some(l.linkId.pub)
    && l.destination == session.destination && l.linkId == session.linkId
    && l.key == session.key && l.mode == session.mode && l.mtu == session.mtu
  }

  ghost predicate InitiatorOk(l: Link, i: nat, rtt: Option<Key>, sessions: seq<Link>) {
    && l.initiator && l.mode == MODE_DEFAULT && l.linkId == LinkId(l.destination, InitiatorPub(i), InitiatorPub(i))
    && (l.status.Pending? ==> l.own == Some(InitiatorPub(i)) && l.key.None? && rtt.None?)
    && (l.status.Closed? ==> l.key.None?)
    && (Up(l) ==> rtt == l.key && l.peer.Some? && l.peer.value.ResponderPub? && l.peer.value.j < |sessions|
                  && Agrees(l, sessions[l.peer.value.j], l.peer.value.j))
    && (rtt.Some? ==> RttOk(rtt.value, l.linkId, sessions))
  }

  /** An RTT packet was sealed with the key of some session of this very link. */
  ghost predicate RttOk(rtt: Key, linkId: LinkId, sessions: seq<Link>) {
    exists j :: 0 <= j < |sessions| && sessions[j].key == Some(rtt) && sessions[j].linkId == linkId
  }

  ghost predicate SignatureOk(sig: Signature, session: Link, j: nat) {
    sig == Signs(session, ResponderPub(j))
  }

  ghost predicate Inv(s: System) {
    && |s.rtts| == |s.initiators| && |s.sessions| == |s.responders| == |s.signatures|
    && (forall i :: 0 <= i < |s.initiators| ==> InitiatorOk(s.initiators[i], i, s.rtts[i], s.sessions))
    && (forall j :: 0 <= j < |s.sessions| ==> SessionOk(s.sessions[j], j))
    && (forall j :: 0 <= j < |s.responders| ==> ResponderOk(s.responders[j], s.sessions[j], s.rtts))
    && (forall j :: 0 <= j < |s.signatures| ==> SignatureOk(s.signatures[j], s.sessions[j], j))
  }

  lemma MoreSessions(l: Link, i: nat, rtt: Option<Key>, sessions: seq<Link>, more: Link)
    requires InitiatorOk(l, i, rtt, sessions)
    ensures InitiatorOk(l, i, rtt, sessions + [more])
  {
    if rtt.Some? {
      var j :| 0 <= j < |sessions| && sessions[j].key == Some(rtt.value) && sessions[j].linkId == l.linkId;
      assert (sessions + [more])[j] == sessions[j];
    }
  }

  lemma OpenInv(s: System, destination: nat)
    requires Inv(s)
    ensures Inv(Step(s, Open(destination)))
  {
    var t := Step(s, Open(destination));
    assert forall k :: 0 <= k < |s.rtts| ==> t.rtts[k] == s.rtts[k];
    assert forall j :: 0 <= j < |s.responders| ==> ResponderOk(t.responders[j], t.sessions[j], t.rtts);
  }

  lemma RequestInv(s: System, to: nat, pub: Pub, sigPub: Pub, tail: Tail)
    requires Inv(s)
    ensures Inv(Step(s, DeliverRequest(to, pub, sigPub, tail)))
  {
    var n := |s.responders|;
    var l := Respond(n, to, pub, sigPub, tail);
    if l.Some? {
      assert SessionOk(l.value, n);
      forall i | 0 <= i < |s.initiators|
        ensures InitiatorOk(s.initiators[i], i, s.rtts[i], s.sessions + [l.value])
      {
        MoreSessions(s.initiators[i], i, s.rtts[i], s.sessions, l.value);
      }
    }
  }

  /** A proof that makes the initiator active was signed by a session of the same link, with the same key. */
  lemma ProofAgrees(l: Link, i: nat, proof: Proof, sessions: seq<Link>, signatures: seq<Signature>)
    requires InitiatorOk(l, i, None, sessions) && l.status.Pending?
    requires |signatures| == |sessions|
    requires forall j :: 0 <= j < |sessions| ==> SessionOk(sessions[j], j)
    requires forall j :: 0 <= j < |sessions| ==> SignatureOk(signatures[j], sessions[j], j)
    requires proof.signature.Junk? || proof.signature in signatures
    ensures var (l', active) := ValidateProof(l, proof);
            InitiatorOk(l', i, if active then l'.key else None, sessions)
  {
    var (l', active) := ValidateProof(l, proof);
    if active {
      var j :| 0 <= j < |signatures| && signatures[j] == proof.signature;
      assert SignatureOk(signatures[j], sessions[j], j) && SessionOk(sessions[j], j);
      assert {InitiatorPub(i), ResponderPub(j)} == {ResponderPub(j), InitiatorPub(i)};
      assert Agrees(l', sessions[j], j);
    }
  }

  lemma ProofInv(s: System, i: nat, proof: Proof)
    requires Inv(s)
    ensures Inv(Step(s, DeliverProof(i, proof)))
  {
    if i < |s.initiators| && (proof.signature.Junk? || proof.signature in s.signatures) {
      var (l, active) := ValidateProof(s.initiators[i], proof);
      assert InitiatorOk(s.initiators[i], i, s.rtts[i], s.sessions);
      if s.initiators[i].status.Pending? {
        ProofAgrees(s.initiators[i], i, proof, s.sessions, s.signatures);
        if active {
          MoreRtts(s, i, l.key);
        }
      }
    }
  }

  lemma MoreRtts(s: System, i: nat, key: Option<Key>)
    requires Inv(s) && i < |s.rtts| && s.rtts[i].None?
    ensures forall j :: 0 <= j < |s.responders| ==> ResponderOk(s.responders[j], s.sessions[j], s.rtts[i := key])
  {
    forall j | 0 <= j < |s.responders|
      ensures ResponderOk(s.responders[j], s.sessions[j], s.rtts[i := key])
    {
      assert ResponderOk(s.responders[j], s.sessions[j], s.rtts) && SessionOk(s.sessions[j], j);
      if s.sessions[j].key in s.rtts {
        var k :| 0 <= k < |s.rtts| && s.rtts[k] == s.sessions[j].key;
        assert s.rtts[i := key][k] == s.sessions[j].key;
      }
    }
  }

  lemma InitiatorChanges(s: System, i: nat, l: Link)
    requires Inv(s) && i < |s.initiators| && InitiatorOk(l, i, s.rtts[i], s.sessions)
    ensures Inv(s.(initiators := s.initiators[i := l]))
  {
  }

  lemma ResponderChanges(s: System, j: nat, l: Link)
    requires Inv(s) && j < |s.responders| && ResponderOk(l, s.sessions[j], s.rtts)
    ensures Inv(s.(responders := s.responders[j := l]))
  {
  }

  lemma RttInv(s: System, j: nat, key: Option<Key>, unpacks: bool)
    requires Inv(s)
    ensures Inv(Step(s, DeliverRtt(j, key, unpacks)))
  {
    if j < |s.responders| && (key.None? || Sealed(s, j, key.value)) {
      assert ResponderOk(s.responders[j], s.sessions[j], s.rtts);
      ResponderChanges(s, j, ReceiveRtt(s.responders[j], key, unpacks));
    }
  }

  lemma TouchInv(s: System, initiator: bool, k: nat, f: Link -> Link)
    requires Inv(s) && (f == Receive || f == GoStale || f == Close)
    ensures Inv(Touch(s, initiator, k, f))
  {
    if initiator && k < |s.initiators| {
      assert InitiatorOk(s.initiators[k], k, s.rtts[k], s.sessions);
      InitiatorChanges(s, k, f(s.initiators[k]));
    } else if !initiator && k < |s.responders| {
      assert ResponderOk(s.responders[k], s.sessions[k], s.rtts);
      ResponderChanges(s, k, f(s.responders[k]));
    }
  }

  lemma StepInv(s: System, e: Event)
    requires Inv(s)
    ensures Inv(Step(s, e))
  {
    match e
    case Open(destination) => OpenInv(s, destination);
    case DeliverRequest(to, pub, sigPub, tail) => RequestInv(s, to, pub, sigPub, tail);
    case DeliverProof(i, proof) => ProofInv(s, i, proof);
    case DeliverRtt(j, key, unpacks) => RttInv(s, j, key, unpacks);
    case Traffic(initiator, k) => TouchInv(s, initiator, k, Receive);
    case Idle(initiator, k) => TouchInv(s, initiator, k, GoStale);
    case Shut(initiator, k) => TouchInv(s, initiator, k, Close);
  }

  lemma {:induction false} RunInv(events: seq<Event>)
    ensures Inv(Run(events))
  {
    if events != [] {
      RunInv(events[..|events| - 1]);
      StepInv(Run(events[..|events| - 1]), events[|events| - 1]);
    }
  }

  // ---- what every run keeps ----

  /** An initiator that is up shares link id, key, mode and MTU with a session the destination itself created. */
  lemma InitiatorAgreesInEveryRun(events: seq<Event>, i: nat)
    requires i < |Run(events).initiators| && Up(Run(events).initiators[i])
    ensures var s := Run(events);
            var l := s.initiators[i];
            && l.peer.Some? && l.peer.value.ResponderPub? && l.peer.value.j < |s.sessions|
            && l.key.Some? && Agrees(l, s.sessions[l.peer.value.j], l.peer.value.j)
  {
    RunInv(events);
    var s := Run(events);
    assert InitiatorOk(s.initiators[i], i, s.rtts[i], s.sessions);
    assert SessionOk(s.sessions[s.initiators[i].peer.value.j], s.initiators[i].peer.value.j);
  }

  /** What a responder is up with is what its session was created with. */
  lemma SessionLasts(events: seq<Event>, j: nat)
    requires j < |Run(events).responders|
    ensures var s := Run(events);
            && j < |s.sessions|
            && s.responders[j].linkId == s.sessions[j].linkId && s.responders[j].mtu == s.sessions[j].mtu
            && (s.responders[j].status.Closed? <==> s.responders[j].key != s.sessions[j].key)
  {
    RunInv(events);
    var s := Run(events);
    assert ResponderOk(s.responders[j], s.sessions[j], s.rtts) && SessionOk(s.sessions[j], j);
  }

  // ---- across a run ----

  lemma Prefix(events: seq<Event>, m: nat, n: nat)
    requires n <= m <= |events|
    ensures events[..m][..n] == events[..n]
  {
  }

  /** Sessions and RTT packets stay what they are. */
  ghost predicate Extends(s: System, t: System) {
    && |s.sessions| <= |t.sessions| && |s.rtts| <= |t.rtts|
    && (forall j :: 0 <= j < |s.sessions| ==> t.sessions[j] == s.sessions[j])
    && (forall i :: 0 <= i < |s.rtts| ==> s.rtts[i].Some? ==> t.rtts[i] == s.rtts[i])
  }

  lemma StepExtends(s: System, e: Event)
    requires Inv(s)
    ensures Extends(s, Step(s, e))
  {
    if e.DeliverProof? && e.i < |s.initiators| {
      assert InitiatorOk(s.initiators[e.i], e.i, s.rtts[e.i], s.sessions);
    }
  }

  lemma {:induction false} RunExtends(events: seq<Event>, n: nat)
    requires n <= |events|
    ensures Extends(Run(events[..n]), Run(events))
  {
    if n == |events| {
      assert events[..n] == events;
    } else {
      Prefix(events, |events| - 1, n);
      RunExtends(events[..|events| - 1], n);
      RunInv(events[..|events| - 1]);
      StepExtends(Run(events[..|events| - 1]), events[|events| - 1]);
    }
  }

  /** How the status of an initiator can move: CLOSED for good, and a failed handshake never becomes a link. */
  ghost predicate InitiatorMoves(s: Status, t: Status) {
    && (s.Closed? ==> t.Closed?)
    && (s.Handshake? ==> t.Handshake? || t.Closed?)
    && (s.Active? || s.Stale? ==> t.Active? || t.Stale? || t.Closed?)
  }

  ghost predicate Moves(s: System, t: System) {
    && |s.initiators| <= |t.initiators| && |s.responders| <= |t.responders|
    && (forall i :: 0 <= i < |s.initiators| ==> InitiatorMoves(s.initiators[i].status, t.initiators[i].status))
    && (forall j :: 0 <= j < |s.responders| ==> s.responders[j].status.Closed? ==> t.responders[j].status.Closed?)
  }

  lemma TouchMoves(s: System, initiator: bool, k: nat, f: Link -> Link)
    requires f == Receive || f == GoStale || f == Close
    ensures Moves(s, Touch(s, initiator, k, f))
  {
  }

  lemma StepMoves(s: System, e: Event)
    ensures Moves(s, Step(s, e))
  {
    match e
    case Traffic(initiator, k) => TouchMoves(s, initiator, k, Receive);
    case Idle(initiator, k) => TouchMoves(s, initiator, k, GoStale);
    case Shut(initiator, k) => TouchMoves(s, initiator, k, Close);
    case DeliverProof(i, proof) =>
    case _ =>
  }

  /** CLOSED is never left, on either side, however the run goes on. */
  lemma {:induction false} MovesInEveryRun(events: seq<Event>, n: nat)
    requires n <= |events|
    ensures Moves(Run(events[..n]), Run(events))
  {
    if n == |events| {
      assert events[..n] == events;
    } else {
      Prefix(events, |events| - 1, n);
      MovesInEveryRun(events[..|events| - 1], n);
      StepMoves(Run(events[..|events| - 1]), events[|events| - 1]);
    }
  }

  lemma RttAppears(s: System, e: Event, i: nat)
    requires Inv(s) && i < |Step(s, e).rtts| && Step(s, e).rtts[i].Some?
    requires i < |s.rtts| ==> s.rtts[i].None?
    ensures i < |Step(s, e).initiators| && Step(s, e).initiators[i].status.Active?
    ensures Step(s, e).initiators[i].key == Step(s, e).rtts[i]
  {
  }

  /** The RTT packet of initiator i was sent at a moment when i was up, with that key. */
  lemma {:induction false} RttOrigin(events: seq<Event>, i: nat) returns (n: nat)
    requires i < |Run(events).rtts| && Run(events).rtts[i].Some?
    ensures n <= |events| && i < |Run(events[..n]).initiators|
    ensures Run(events[..n]).initiators[i].status.Active?
    ensures Run(events[..n]).initiators[i].key == Run(events).rtts[i]
  {
    var last := |events| - 1;
    var s := Run(events[..last]);
    RunInv(events[..last]);
    if i < |s.rtts| && s.rtts[i].Some? {
      StepExtends(s, events[last]);
      n := RttOrigin(events[..last], i);
      Prefix(events, last, n);
    } else {
      RttAppears(s, events[last], i);
      n := |events|;
      assert events[..n] == events;
    }
  }

  /** A key names its responder, and its link. */
  lemma KeyNames(a: Link, j: nat, b: Link, k: nat)
    requires SessionOk(a, j) && SessionOk(b, k) && a.key == b.key && a.peer.value.InitiatorPub?
    ensures j == k && a.linkId == b.linkId
  {
    assert ResponderPub(j) in a.key.value.secret;
    assert ResponderPub(j) in b.key.value.secret;
  }

  /** A responder that is up with initiator i holds the key of the RTT packet i has sent. */
  lemma UpHasRtt(s: System, j: nat, i: nat)
    requires Inv(s) && j < |s.responders| && Up(s.responders[j]) && s.responders[j].peer == Some(InitiatorPub(i))
    ensures i < |s.rtts| && s.rtts[i] == s.sessions[j].key && s.rtts[i].Some?
  {
    assert ResponderOk(s.responders[j], s.sessions[j], s.rtts) && SessionOk(s.sessions[j], j);
    var k :| 0 <= k < |s.rtts| && s.rtts[k] == s.sessions[j].key;
    assert InitiatorOk(s.initiators[k], k, s.rtts[k], s.sessions);
    var m :| 0 <= m < |s.sessions| && s.sessions[m].key == s.rtts[k] && s.sessions[m].linkId == s.initiators[k].linkId;
    KeyNames(s.sessions[j], j, s.sessions[m], m);
  }

  /** A responder comes up only after the initiator named in its link request was up, agreeing with it on
      link id, key, mode and MTU. */
  lemma ResponderFollowsInEveryRun(events: seq<Event>, j: nat, i: nat) returns (n: nat)
    requires j < |Run(events).responders| && Up(Run(events).responders[j])
    requires Run(events).responders[j].peer == Some(InitiatorPub(i))
    ensures n <= |events| && i < |Run(events[..n]).initiators| && Up(Run(events[..n]).initiators[i])
    ensures j < |Run(events).sessions| && Agrees(Run(events[..n]).initiators[i], Run(events).sessions[j], j)
  {
    RunInv(events);
    UpHasRtt(Run(events), j, i);
    n := RttOrigin(events, i);
    var s, t := Run(events[..n]), Run(events);
    InitiatorAgreesInEveryRun(events[..n], i);
    RunExtends(events, n);
    var k := s.initiators[i].peer.value.j;
    assert t.sessions[k] == s.sessions[k];
    assert ResponderOk(t.responders[j], t.sessions[j], t.rtts) && SessionOk(t.sessions[k], k);
    KeyNames(t.sessions[j], j, t.sessions[k], k);
  }

  /** However often a link request is delivered, only one of the responders it creates ever comes up. */
  lemma OneResponderInEveryRun(events: seq<Event>, m: nat, n: nat, j: nat, k: nat, i: nat)
    requires m <= |events| && n <= |events|
    requires j < |Run(events[..m]).responders| && k < |Run(events[..n]).responders|
    requires Up(Run(events[..m]).responders[j]) && Run(events[..m]).responders[j].peer == Some(InitiatorPub(i))
    requires Up(Run(events[..n]).responders[k]) && Run(events[..n]).responders[k].peer == Some(InitiatorPub(i))
    ensures j == k
  {
    RunInv(events[..m]);
    RunInv(events[..n]);
    RunInv(events);
    UpHasRtt(Run(events[..m]), j, i);
    UpHasRtt(Run(events[..n]), k, i);
    RunExtends(events, m);
    RunExtends(events, n);
    var s := Run(events);
    assert s.sessions[j].key == s.rtts[i] == s.sessions[k].key;
    assert SessionOk(s.sessions[j], j) && SessionOk(s.sessions[k], k);
    assert ResponderOk(Run(events[..m]).responders[j], s.sessions[j], Run(events[..m]).rtts);
    KeyNames(s.sessions[j], j, s.sessions[k], k);
  }

  /** The first proof of the right mode and length decides: it brings the initiator up if its signature is
      valid, and otherwise no later proof, valid or not, ever will. */
  lemma FirstProofDecides(events: seq<Event>, i: nat, proof: Proof, more: seq<Event>)
    requires i < |Run(events).initiators| && Run(events).initiators[i].status.Pending?
    requires proof.signature.Junk? || proof.signature in Run(events).signatures
    requires proof.tail.NoTail? || (proof.tail.Signalling? && proof.tail.mode == MODE_DEFAULT)
    ensures var l := Run(events).initiators[i];
            var valid := proof.signature == Signed(l.destination, l.linkId, proof.pub, proof.tail);
            && i < |Run(events + [DeliverProof(i, proof)]).initiators|
            && (Up(Run(events + [DeliverProof(i, proof)]).initiators[i]) <==> valid)
            && i < |Run(events + [DeliverProof(i, proof)] + more).initiators|
            && (Up(Run(events + [DeliverProof(i, proof)] + more).initiators[i]) ==> valid)
  {
    var upto := events + [DeliverProof(i, proof)];
    assert upto[..|upto| - 1] == events;
    RunInv(events);
    assert InitiatorOk(Run(events).initiators[i], i, Run(events).rtts[i], Run(events).sessions);
    assert (upto + more)[..|upto|] == upto;
    MovesInEveryRun(upto + more, |upto|);
  }

  /** The request of a pending initiator as it arrives, its MTU signalled as `mtu` on the way, the proof that
      answers it and the RTT packet that answers the proof. */
  function Exchange(s: System, i: nat, mtu: nat): seq<Event>
    requires i < |s.initiators|
  {
    var id := s.initiators[i].linkId;
    var j := |s.responders|;
    var tail := Signalling(MtuOr(mtu), MODE_DEFAULT);
    [DeliverRequest(id.destination, id.pub, id.sigPub, Signalling(mtu, MODE_DEFAULT)),
     DeliverProof(i, Proof(Signed(id.destination, id, ResponderPub(j), tail), ResponderPub(j), tail)),
     DeliverRtt(j, Some(Key({InitiatorPub(i), ResponderPub(j)}, id, MODE_DEFAULT)), true)]
  }

  lemma RunSnoc(events: seq<Event>, e: Event)
    ensures Run(events + [e]) == Step(Run(events), e)
  {
    assert (events + [e])[..|events + [e]| - 1] == events;
  }

  /** Wherever a run has got to, three deliveries in order bring a pending link up on both sides. */
  lemma ExchangeCompletes(events: seq<Event>, i: nat, mtu: nat)
    requires i < |Run(events).initiators| && Run(events).initiators[i].status.Pending?
    ensures var s := Run(events + Exchange(Run(events), i, mtu));
            var j := |Run(events).responders|;
            && i < |s.initiators| && j < |s.responders|
            && Up(s.initiators[i]) && Up(s.responders[j])
            && s.initiators[i].key == s.responders[j].key && s.initiators[i].key.Some?
            && s.initiators[i].mtu == s.responders[j].mtu == MtuOr(mtu)
  {
    var s := Run(events);
    var x := Exchange(s, i, mtu);
    RunInv(events);
    assert InitiatorOk(s.initiators[i], i, s.rtts[i], s.sessions);
    assert events + x == events + [x[0]] + [x[1]] + [x[2]];
    RunSnoc(events, x[0]);
    RunSnoc(events + [x[0]], x[1]);
    RunSnoc(events + [x[0]] + [x[1]], x[2]);
    var j := |s.responders|;
    var s1 := Step(s, x[0]);
    assert s1.signatures[j] == x[1].proof.signature;
    assert {ResponderPub(j), InitiatorPub(i)} == {InitiatorPub(i), ResponderPub(j)};
    var s2 := Step(s1, x[1]);
    assert s2.rtts[i] == x[2].key;
  }
}
