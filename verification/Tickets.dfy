/** Delivery tickets (reference/LXMF/LXMRouter.py): any number of routers that issue, remember and clean
    tickets under one clock, in any order, with the messages that carry tickets delayed, lost or repeated. */
module Tickets {
  import opened Prelude
  import opened LxmfMessage

  const DAY: int := 24 * 60 * 60
  const TICKET_EXPIRY: int := 21 * DAY
  const TICKET_GRACE: int := 5 * DAY
  const TICKET_RENEW: int := 14 * DAY
  const TICKET_INTERVAL: int := 1 * DAY

  datatype Ticket = Ticket(bytes: Bytes, expires: int)

  /** A router's tables, by the other router; inbound tickets as a dictionary in order of insertion. */
  datatype Router = Router(inbound: map<nat, seq<Ticket>>, outbound: map<nat, Ticket>, lastDelivery: map<nat, int>)

  // ---- one router ----

  function Inbound(r: Router, other: nat): seq<Ticket> {
    if other in r.inbound then r.inbound[other] else []
  }

  /** The first ticket with more than TICKET_RENEW left. */
  function Reusable(ts: seq<Ticket>, now: int): (t: Option<Ticket>)
    ensures t.Some? ==> t.value in ts && t.value.expires - now > TICKET_RENEW
  {
    if ts == [] then None
    else if ts[0].expires - now > TICKET_RENEW then Some(ts[0])
    else Reusable(ts[1..], now)
  }

  /** Dictionary assignment. */
  function Put(ts: seq<Ticket>, t: Ticket): seq<Ticket> {
    if ts == [] then [t]
    else if ts[0].bytes == t.bytes then [t] + ts[1..]
    else [ts[0]] + Put(ts[1..], t)
  }

  predicate TooSoon(r: Router, other: nat, now: int) {
    other in r.lastDelivery && now - r.lastDelivery[other] < TICKET_INTERVAL
  }

  /** generate_ticket: the ticket handed out, if any; `random` is what os.urandom would give. */
  function Issued(r: Router, other: nat, now: int, random: Bytes): Option<Ticket> {
    if TooSoon(r, other, now) then None
    else
      var reuse := Reusable(Inbound(r, other), now);
      if reuse.Some? then reuse else Some(Ticket(random, now + TICKET_EXPIRY))
  }

  function AfterIssue(r: Router, other: nat, now: int, random: Bytes): Router {
    if TooSoon(r, other, now) || Reusable(Inbound(r, other), now).Some? then r
    else r.(inbound := r.inbound[other := Put(Inbound(r, other), Ticket(random, now + TICKET_EXPIRY))])
  }

  /** The ticket part of lxmf_delivery and remember_ticket. */
  function Remember(r: Router, other: nat, t: Ticket, now: int): Router {
    if now < t.expires && |t.bytes| == TICKET_LENGTH then r.(outbound := r.outbound[other := t]) else r
  }

  function OutboundTicket(r: Router, other: nat, now: int): Option<Bytes> {
    if other in r.outbound && r.outbound[other].expires > now then Some(r.outbound[other].bytes) else None
  }

  function Unexpired(ts: seq<Ticket>, now: int): seq<Bytes> {
    if ts == [] then []
    else if now < ts[|ts| - 1].expires then Unexpired(ts[..|ts| - 1], now) + [ts[|ts| - 1].bytes]
    else Unexpired(ts[..|ts| - 1], now)
  }

  /** get_inbound_tickets */
  function InboundTickets(r: Router, other: nat, now: int): seq<Bytes> {
    Unexpired(Inbound(r, other), now)
  }

  function WithinGrace(ts: seq<Ticket>, now: int): seq<Ticket> {
    if ts == [] then []
    else if now > ts[|ts| - 1].expires + TICKET_GRACE then WithinGrace(ts[..|ts| - 1], now)
    else WithinGrace(ts[..|ts| - 1], now) + [ts[|ts| - 1]]
  }

  /** clean_available_tickets */
  function Clean(r: Router, now: int): Router {
    r.(inbound := map k | k in r.inbound :: WithinGrace(r.inbound[k], now),
       outbound := map k | k in r.outbound && !(now > r.outbound[k].expires) :: r.outbound[k])
  }

  // ---- all routers ----

  datatype Mail = Mail(from: nat, to: nat, ticket: Ticket)

  datatype System = System(routers: seq<Router>, clock: int, mail: seq<Mail>)

  datatype Event =
    | Generate(from: nat, to: nat, random: Bytes)
    | Deliver(k: nat)
    | CleanUp(router: nat)
    | Delivered(from: nat, to: nat)
    | Tick(elapsed: nat)

  function Start(n: nat, clock: int): System {
    System(seq(n, i => Router(map[], map[], map[])), clock, [])
  }

  function Step(s: System, e: Event): System {
    match e
    case Generate(a, b, random) =>
      if a < |s.routers| then
        var t := Issued(s.routers[a], b, s.clock, random);
        s.(routers := s.routers[a := AfterIssue(s.routers[a], b, s.clock, random)],
           mail := if t.Some? then s.mail + [Mail(a, b, t.value)] else s.mail)
      else s
    case Deliver(k) =>
      if k < |s.mail| && s.mail[k].to < |s.routers| then
        var m := s.mail[k];
        s.(routers := s.routers[m.to := Remember(s.routers[m.to], m.from, m.ticket, s.clock)])
      else s
    case CleanUp(a) => if a < |s.routers| then s.(routers := s.routers[a := Clean(s.routers[a], s.clock)]) else s
    case Delivered(a, b) =>
      if a < |s.routers| then
        s.(routers := s.routers[a := s.routers[a].(lastDelivery := s.routers[a].lastDelivery[b := s.clock])])
      else s
    case Tick(elapsed) => s.(clock := s.clock + elapsed)
  }

  function Run(n: nat, clock: int, events: seq<Event>): System {
    if events == [] then Start(n, clock)
    else Step(Run(n, clock, events[..|events| - 1]), events[|events| - 1])
  }

  // ---- invariant ----

  /** The issuer still honours the ticket for as long as the ticket says. */
  ghost predicate Honoured(ts: seq<Ticket>, t: Ticket, now: int) {
    now > t.expires || exists k :: 0 <= k < |ts| && ts[k].bytes == t.bytes && ts[k].expires >= t.expires
  }

  ghost predicate MailOk(s: System, m: Mail) {
    m.from < |s.routers| && Honoured(Inbound(s.routers[m.from], m.to), m.ticket, s.clock)
  }

  ghost predicate OutboundOk(s: System, b: nat, a: nat)
    requires b < |s.routers| && a in s.routers[b].outbound
  {
    a < |s.routers| && |s.routers[b].outbound[a].bytes| == TICKET_LENGTH
    && Honoured(Inbound(s.routers[a], b), s.routers[b].outbound[a], s.clock)
  }

  ghost predicate Bounded(ts: seq<Ticket>, now: int) {
    forall k :: 0 <= k < |ts| ==> ts[k].expires <= now + TICKET_EXPIRY
  }

  ghost predicate Inv(s: System) {
    && (forall k :: 0 <= k < |s.mail| ==> MailOk(s, s.mail[k]))
    && (forall b, a :: 0 <= b < |s.routers| && a in s.routers[b].outbound ==> OutboundOk(s, b, a))
    && (forall a, b: nat :: 0 <= a < |s.routers| ==> Bounded(Inbound(s.routers[a], b), s.clock))
  }

  // ---- tickets in a list ----

  lemma {:induction false} PutKeeps(ts: seq<Ticket>, t: Ticket, u: Ticket, now: int)
    requires Honoured(ts, u, now) && (forall k :: 0 <= k < |ts| ==> ts[k].expires <= t.expires)
    ensures Honoured(Put(ts, t), u, now)
    decreases |ts|
  {
    if now <= u.expires {
      var k :| 0 <= k < |ts| && ts[k].bytes == u.bytes && ts[k].expires >= u.expires;
      if ts[0].bytes == t.bytes {
        var p := Put(ts, t);
        assert k == 0 ==> p[0].bytes == u.bytes && p[0].expires >= u.expires;
        assert k > 0 ==> p[k] == ts[k];
      } else if k == 0 {
        assert Put(ts, t)[0] == ts[0];
      } else {
        assert ts[1..][k - 1] == ts[k];
        PutKeeps(ts[1..], t, u, now);
        var m :| 0 <= m < |Put(ts[1..], t)| && Put(ts[1..], t)[m].bytes == u.bytes && Put(ts[1..], t)[m].expires >= u.expires;
        assert Put(ts, t)[m + 1] == Put(ts[1..], t)[m];
      }
    }
  }

  lemma {:induction false} PutIs(ts: seq<Ticket>, t: Ticket)
    ensures t in Put(ts, t)
    ensures forall u :: u in Put(ts, t) ==> u == t || u in ts
    decreases |ts|
  {
    if ts != [] && ts[0].bytes != t.bytes {
      PutIs(ts[1..], t);
    }
  }

  lemma {:induction false} GraceIs(ts: seq<Ticket>, now: int)
    ensures forall u :: u in WithinGrace(ts, now) <==> u in ts && now <= u.expires + TICKET_GRACE
  {
    if ts != [] {
      GraceIs(ts[..|ts| - 1], now);
      assert ts == ts[..|ts| - 1] + [ts[|ts| - 1]];
    }
  }

  lemma GraceKeeps(ts: seq<Ticket>, u: Ticket, now: int)
    requires Honoured(ts, u, now)
    ensures Honoured(WithinGrace(ts, now), u, now)
  {
    if now <= u.expires {
      GraceIs(ts, now);
      var k :| 0 <= k < |ts| && ts[k].bytes == u.bytes && ts[k].expires >= u.expires;
      assert ts[k] in WithinGrace(ts, now);
      var m :| 0 <= m < |WithinGrace(ts, now)| && WithinGrace(ts, now)[m] == ts[k];
    }
  }

  lemma {:induction false} UnexpiredIs(ts: seq<Ticket>, now: int, k: nat)
    requires k < |ts| && now < ts[k].expires
    ensures ts[k].bytes in Unexpired(ts, now)
  {
    if k < |ts| - 1 {
      UnexpiredIs(ts[..|ts| - 1], now, k);
    }
  }

  // ---- every step keeps it ----

  /** What router a honours in s it honours in t, and no ticket lasts too long. */
  ghost predicate StillHonours(s: System, t: System, a: nat)
    requires a < |s.routers| == |t.routers|
  {
    forall b: nat, u :: Honoured(Inbound(s.routers[a], b), u, s.clock) ==> Honoured(Inbound(t.routers[a], b), u, t.clock)
  }

  lemma KeepsInv(s: System, t: System)
    requires Inv(s) && |t.routers| == |s.routers|
    requires forall a :: 0 <= a < |s.routers| ==> StillHonours(s, t, a)
    requires forall a, b: nat :: 0 <= a < |t.routers| ==> Bounded(Inbound(t.routers[a], b), t.clock)
    requires forall k :: 0 <= k < |t.mail| ==> t.mail[k] in s.mail || MailOk(t, t.mail[k])
    requires forall b, a :: 0 <= b < |t.routers| && a in t.routers[b].outbound ==>
               (a in s.routers[b].outbound && s.routers[b].outbound[a] == t.routers[b].outbound[a]) || OutboundOk(t, b, a)
    ensures Inv(t)
  {
    forall k | 0 <= k < |t.mail|
      ensures MailOk(t, t.mail[k])
    {
      if t.mail[k] in s.mail {
        var m :| 0 <= m < |s.mail| && s.mail[m] == t.mail[k];
        assert MailOk(s, s.mail[m]) && StillHonours(s, t, s.mail[m].from);
      }
    }
    forall b, a | 0 <= b < |t.routers| && a in t.routers[b].outbound
      ensures OutboundOk(t, b, a)
    {
      if a in s.routers[b].outbound && s.routers[b].outbound[a] == t.routers[b].outbound[a] {
        assert OutboundOk(s, b, a) && StillHonours(s, t, a);
      }
    }
  }

  lemma GenerateHonours(s: System, a: nat, b: nat, random: Bytes)
    requires Inv(s) && a < |s.routers|
    ensures var t := Step(s, Generate(a, b, random));
            && StillHonours(s, t, a) && (forall c: nat :: Bounded(Inbound(t.routers[a], c), t.clock))
            && (Issued(s.routers[a], b, s.clock, random).Some? ==>
                  MailOk(t, Mail(a, b, Issued(s.routers[a], b, s.clock, random).value)))
  {
    var t := Step(s, Generate(a, b, random));
    var r, issue := s.routers[a], Ticket(random, s.clock + TICKET_EXPIRY);
    assert Bounded(Inbound(r, b), s.clock);
    assert forall c: nat :: Bounded(Inbound(r, c), s.clock);
    if !TooSoon(r, b, s.clock) && Reusable(Inbound(r, b), s.clock).None? {
      assert Inbound(t.routers[a], b) == Put(Inbound(r, b), issue);
      forall c: nat, u | Honoured(Inbound(r, c), u, s.clock)
        ensures Honoured(Inbound(t.routers[a], c), u, t.clock)
      {
        if c == b {
          PutKeeps(Inbound(r, b), issue, u, s.clock);
        }
      }
      PutIs(Inbound(r, b), issue);
      var p := Put(Inbound(r, b), issue);
      forall k | 0 <= k < |p|
        ensures p[k].expires <= s.clock + TICKET_EXPIRY
      {
        assert p[k] in p;
      }
      assert Bounded(p, s.clock);
      forall c: nat
        ensures Bounded(Inbound(t.routers[a], c), t.clock)
      {
        assert c != b ==> Inbound(t.routers[a], c) == Inbound(r, c);
      }
      var m :| 0 <= m < |p| && p[m] == issue;
    } else if !TooSoon(r, b, s.clock) {
      var ts, u := Inbound(r, b), Reusable(Inbound(r, b), s.clock).value;
      var m :| 0 <= m < |ts| && ts[m] == u;
      assert Honoured(ts, u, s.clock);
    }
  }

  lemma GenerateInv(s: System, a: nat, b: nat, random: Bytes)
    requires Inv(s)
    ensures Inv(Step(s, Generate(a, b, random)))
  {
    if a < |s.routers| {
      GenerateHonours(s, a, b, random);
      KeepsInv(s, Step(s, Generate(a, b, random)));
    }
  }

  lemma DeliverInv(s: System, k: nat)
    requires Inv(s)
    ensures Inv(Step(s, Deliver(k)))
  {
    if k < |s.mail| && s.mail[k].to < |s.routers| {
      var t := Step(s, Deliver(k));
      assert MailOk(s, s.mail[k]);
      assert forall a, b: nat :: 0 <= a < |s.routers| ==> Inbound(t.routers[a], b) == Inbound(s.routers[a], b);
      KeepsInv(s, t);
    }
  }

  lemma CleanInv(s: System, a: nat)
    requires Inv(s)
    ensures Inv(Step(s, CleanUp(a)))
  {
    if a < |s.routers| {
      var t := Step(s, CleanUp(a));
      forall b: nat, u | Honoured(Inbound(s.routers[a], b), u, s.clock)
        ensures Honoured(Inbound(t.routers[a], b), u, t.clock)
      {
        GraceKeeps(Inbound(s.routers[a], b), u, s.clock);
      }
      forall c, b: nat | 0 <= c < |t.routers|
        ensures Bounded(Inbound(t.routers[c], b), t.clock)
      {
        CleanBounded(s, a, c, b);
      }
      KeepsInv(s, t);
    }
  }

  lemma CleanBounded(s: System, a: nat, c: nat, b: nat)
    requires Inv(s) && a < |s.routers| && c < |s.routers|
    ensures var t := Step(s, CleanUp(a)); Bounded(Inbound(t.routers[c], b), t.clock)
  {
    var ts := Inbound(s.routers[c], b);
    assert Bounded(ts, s.clock);
    GraceIs(ts, s.clock);
    var us := WithinGrace(ts, s.clock);
    forall k | 0 <= k < |us|
      ensures us[k].expires <= s.clock + TICKET_EXPIRY
    {
      assert us[k] in us;
    }
  }

  lemma TickInv(s: System, elapsed: nat)
    requires Inv(s)
    ensures Inv(Step(s, Tick(elapsed)))
  {
    var t := Step(s, Tick(elapsed));
    forall a, b: nat | 0 <= a < |t.routers|
      ensures Bounded(Inbound(t.routers[a], b), t.clock)
    {
      assert Bounded(Inbound(s.routers[a], b), s.clock);
    }
    KeepsInv(s, t);
  }

  lemma StepInv(s: System, e: Event)
    requires Inv(s)
    ensures Inv(Step(s, e))
  {
    match e
    case Generate(a, b, random) => GenerateInv(s, a, b, random);
    case Deliver(k) => DeliverInv(s, k);
    case CleanUp(a) => CleanInv(s, a);
    case Delivered(a, b) =>
      var t := Step(s, e);
      assert forall c, d: nat :: 0 <= c < |s.routers| ==> Inbound(t.routers[c], d) == Inbound(s.routers[c], d);
      KeepsInv(s, t);
    case Tick(elapsed) => TickInv(s, elapsed);
  }

  lemma {:induction false} RunInv(n: nat, clock: int, events: seq<Event>)
    ensures Inv(Run(n, clock, events))
  {
    if events != [] {
      RunInv(n, clock, events[..|events| - 1]);
      StepInv(Run(n, clock, events[..|events| - 1]), events[|events| - 1]);
    }
  }

  // ---- what every run keeps ----

  /** No step makes an issuer stop honouring a ticket before it has expired. */
  lemma StepHonours(s: System, e: Event, a: nat)
    requires Inv(s) && a < |s.routers|
    ensures |Step(s, e).routers| == |s.routers| && StillHonours(s, Step(s, e), a)
  {
    var t := Step(s, e);
    if e.Generate? && e.from == a {
      GenerateHonours(s, a, e.to, e.random);
    } else if e.CleanUp? && e.router == a {
      forall b: nat, u | Honoured(Inbound(s.routers[a], b), u, s.clock)
        ensures Honoured(Inbound(t.routers[a], b), u, t.clock)
      {
        GraceKeeps(Inbound(s.routers[a], b), u, s.clock);
      }
    } else {
      assert forall b: nat :: Inbound(t.routers[a], b) == Inbound(s.routers[a], b);
    }
  }

  /** A ticket honoured at some point of a run is honoured at every later one. */
  lemma {:induction false} StaysHonoured(n: nat, clock: int, events: seq<Event>, m: nat, a: nat, b: nat, u: Ticket)
    requires m <= |events| && a < |Run(n, clock, events[..m]).routers|
    requires Honoured(Inbound(Run(n, clock, events[..m]).routers[a], b), u, Run(n, clock, events[..m]).clock)
    ensures a < |Run(n, clock, events).routers|
    ensures Honoured(Inbound(Run(n, clock, events).routers[a], b), u, Run(n, clock, events).clock)
  {
    if m == |events| {
      assert events[..m] == events;
    } else {
      var before := events[..|events| - 1];
      assert before[..m] == events[..m];
      StaysHonoured(n, clock, before, m, a, b, u);
      RunInv(n, clock, before);
      StepHonours(Run(n, clock, before), events[|events| - 1], a);
    }
  }

  /** A ticket a router would stamp with at some point of a run is among those its issuer accepts at every later
      point before it expires, whatever is issued, remembered or cleaned on either side in between. */
  lemma HonouredInEveryRun(n: nat, clock: int, events: seq<Event>, m: nat, a: nat, b: nat)
    requires m <= |events| && b < |Run(n, clock, events[..m]).routers|
    requires OutboundTicket(Run(n, clock, events[..m]).routers[b], a, Run(n, clock, events[..m]).clock).Some?
    requires Run(n, clock, events).clock < Run(n, clock, events[..m]).routers[b].outbound[a].expires
    ensures var ticket := OutboundTicket(Run(n, clock, events[..m]).routers[b], a, Run(n, clock, events[..m]).clock).value;
            var s := Run(n, clock, events);
            && a < |s.routers| && |ticket| == TICKET_LENGTH
            && ticket in InboundTickets(s.routers[a], b, s.clock)
  {
    RunInv(n, clock, events[..m]);
    var s, t := Run(n, clock, events[..m]), Run(n, clock, events);
    assert OutboundOk(s, b, a);
    var u := s.routers[b].outbound[a];
    StaysHonoured(n, clock, events, m, a, b, u);
    var ts := Inbound(t.routers[a], b);
    var k :| 0 <= k < |ts| && ts[k].bytes == u.bytes && ts[k].expires >= u.expires;
    UnexpiredIs(ts, t.clock, k);
  }

  /** So a message b stamps with a ticket it remembers for a arrives at a with every field, the same id, a valid
      signature and an accepted stamp, at any later time before the ticket expires and whatever happened to the
      tables of either router in the meantime. */
  lemma StampedMailAccepted(n: nat, clock: int, events: seq<Event>, m: nat, a: nat, b: nat,
                            c: Codec, message: Message, key: nat, cost: Option<nat>, required: nat)
    requires m <= |events| && b < |Run(n, clock, events[..m]).routers|
    requires OutboundTicket(Run(n, clock, events[..m]).routers[b], a, Run(n, clock, events[..m]).clock).Some?
    requires Run(n, clock, events).clock < Run(n, clock, events[..m]).routers[b].outbound[a].expires
    requires Lawful(c) && |message.destination| == |message.source| == DESTINATION_LENGTH
    ensures var ticket := OutboundTicket(Run(n, clock, events[..m]).routers[b], a, Run(n, clock, events[..m]).clock);
            var id := c.hash(Hashed(c, message));
            var u := Unpack(c, Pack(c, message, key, GetStamp(c, id, ticket, cost, None, None)).bytes, Some(key));
            var s := Run(n, clock, events);
            && a < |s.routers| && u.Some? && u.value.message == message && u.value.id == id && u.value.validated
            && StampAccepted(c, u.value.stamp, u.value.id, required, InboundTickets(s.routers[a], b, s.clock))
  {
    HonouredInEveryRun(n, clock, events, m, a, b);
    var s := Run(n, clock, events);
    var ticket := OutboundTicket(Run(n, clock, events[..m]).routers[b], a, Run(n, clock, events[..m]).clock).value;
    TicketAccepted(c, message, key, ticket, cost, required, InboundTickets(s.routers[a], b, s.clock));
    UnpackPack(c, message, key, GetStamp(c, c.hash(Hashed(c, message)), Some(ticket), cost, None, None));
  }

  /** Whatever ticket is handed out lasts for more than TICKET_RENEW and no more than TICKET_EXPIRY. */
  lemma IssuedLasts(n: nat, clock: int, events: seq<Event>, a: nat, b: nat, random: Bytes)
    requires a < |Run(n, clock, events).routers|
    requires Issued(Run(n, clock, events).routers[a], b, Run(n, clock, events).clock, random).Some?
    ensures var s := Run(n, clock, events);
            var t := Issued(s.routers[a], b, s.clock, random).value;
            TICKET_RENEW < t.expires - s.clock <= TICKET_EXPIRY
  {
    RunInv(n, clock, events);
    var s := Run(n, clock, events);
    assert Bounded(Inbound(s.routers[a], b), s.clock);
  }
}

/** The ticket tables of a router as an object, looping over its dictionaries. */
module TicketObject {
  import opened Prelude
  import LxmfMessage
  import Spec = Tickets

  class TicketTables {
    var inbound: map<nat, seq<Spec.Ticket>>
    var outbound: map<nat, Spec.Ticket>
    var lastDelivery: map<nat, int>

    ghost function View(): Spec.Router
      reads this
    {
      Spec.Router(inbound, outbound, lastDelivery)
    }

    constructor ()
      ensures View() == Spec.Router(map[], map[], map[])
    {
      inbound, outbound, lastDelivery := map[], map[], map[];
    }

    method GenerateTicket(other: nat, now: int, random: Bytes) returns (t: Option<Spec.Ticket>)
      modifies this
      ensures t == Spec.Issued(old(View()), other, now, random)
      ensures View() == Spec.AfterIssue(old(View()), other, now, random)
    {
      if other in lastDelivery {
        var elapsed := now - lastDelivery[other];
        if elapsed < Spec.TICKET_INTERVAL {
          return None;
        }
      }
      var known := if other in inbound then inbound[other] else [];
      var reuse := FindReusable(known, now);
      if reuse.Some? {
        return reuse;
      }
      var ticket := Spec.Ticket(random, now + Spec.TICKET_EXPIRY);
      inbound := inbound[other := Spec.Put(known, ticket)];
      t := Some(ticket);
    }

    static method FindReusable(ts: seq<Spec.Ticket>, now: int) returns (t: Option<Spec.Ticket>)
      ensures t == Spec.Reusable(ts, now)
    {
      var i := 0;
      while i < |ts|
        invariant 0 <= i <= |ts|
        invariant Spec.Reusable(ts, now) == Spec.Reusable(ts[i..], now)
      {
        assert ts[i..][1..] == ts[i + 1..];
        if ts[i].expires - now > Spec.TICKET_RENEW {
          return Some(ts[i]);
        }
        i := i + 1;
      }
      t := None;
    }

    method RememberTicket(other: nat, t: Spec.Ticket, now: int)
      modifies this
      ensures View() == Spec.Remember(old(View()), other, t, now)
    {
      if now < t.expires && |t.bytes| == LxmfMessage.TICKET_LENGTH {
        outbound := outbound[other := t];
      }
    }

    method GetInboundTickets(other: nat, now: int) returns (tickets: seq<Bytes>)
      ensures tickets == Spec.InboundTickets(View(), other, now)
    {
      tickets := [];
      if other in inbound {
        var ts := inbound[other];
        for i := 0 to |ts|
          invariant tickets == Spec.Unexpired(ts[..i], now)
        {
          assert ts[..i + 1][..i] == ts[..i];
          if now < ts[i].expires {
            tickets := tickets + [ts[i].bytes];
          }
        }
        assert ts[..|ts|] == ts;
      }
    }

    static method DropExpired(ts: seq<Spec.Ticket>, now: int) returns (kept: seq<Spec.Ticket>)
      ensures kept == Spec.WithinGrace(ts, now)
    {
      kept := [];
      for i := 0 to |ts|
        invariant kept == Spec.WithinGrace(ts[..i], now)
      {
        assert ts[..i + 1][..i] == ts[..i];
        if !(now > ts[i].expires + Spec.TICKET_GRACE) {
          kept := kept + [ts[i]];
        }
      }
      assert ts[..|ts|] == ts;
    }

    static method DropAllExpired(tables: map<nat, seq<Spec.Ticket>>, now: int) returns (cleaned: map<nat, seq<Spec.Ticket>>)
      ensures cleaned == map k | k in tables :: Spec.WithinGrace(tables[k], now)
    {
      var todo := tables.Keys;
      cleaned := map[];
      while todo != {}
        invariant todo <= tables.Keys && cleaned.Keys == tables.Keys - todo
        invariant forall k :: k in cleaned ==> cleaned[k] == Spec.WithinGrace(tables[k], now)
        decreases |todo|
      {
        var k :| k in todo;
        var kept := DropExpired(tables[k], now);
        cleaned := cleaned[k := kept];
        todo := todo - {k};
      }
    }

    method CleanAvailableTickets(now: int)
      modifies this
      ensures View() == Spec.Clean(old(View()), now)
    {
      outbound := map k | k in outbound && !(now > outbound[k].expires) :: outbound[k];
      inbound := DropAllExpired(inbound, now);
      assert outbound == Spec.Clean(old(View()), now).outbound;
      assert inbound == Spec.Clean(old(View()), now).inbound;
    }
  }
}
