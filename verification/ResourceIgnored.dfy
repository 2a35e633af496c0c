/** A run of the transfer in which a part that was requested arrives and is not stored: the accepted range of a
    receiver ends one before the range it requests. */
module ResourceIgnored {
  import opened Prelude
  import opened ResourceReceiver
  import opened ResourceSender
  import opened ResourceTransfer

  /** Three parts, each its own hash. */
  ghost predicate ThreeParts(cfg: Config) {
    && cfg.parts == [[1], [2], [3]]
    && cfg.mapHash([1]) == [1] && cfg.mapHash([2]) == [2] && cfg.mapHash([3]) == [3]
  }

  const UNTIMED: Observation := Observation(false, false, false, false, false)

  /** Part 0 arrives and part 1 is lost; the receiver times out and asks for parts 1 and 2; part 1 is lost again
      and part 2 arrives. */
  const LATE: seq<Event> := [DeliverUp, DeliverDown(UNTIMED), DropDown(0), ReceiverTimeout, DeliverUp, DropDown(0), DeliverDown(UNTIMED)]

  /** A receiver of the three parts that knows all their hashes, with a window of two. */
  function Receiver(parts: seq<Option<Bytes>>, completed: int, received: nat, outstanding: int, retries: nat, awaiting: bool): State {
    State(Transferring, parts, [Some([1]), Some([2]), Some([3])], 3, completed, received, outstanding, false,
          2, 10, 2, retries, 0, 0, awaiting, false)
  }

  /** The system as far as the example needs it. */
  ghost predicate At(s: System, r: State, up: seq<UpPacket>, down: seq<DownPacket>, seen: set<nat>, nextId: nat) {
    && s.rcv == r && s.up == up && s.down == down && s.seen == seen && s.nextId == nextId
    && s.listening && !s.snd.status.Cancelled?
  }

  lemma ThreeValid(cfg: Config)
    requires ThreeParts(cfg)
    ensures ValidConfig(cfg) && Hashes(cfg) == [[1], [2], [3]]
  {
    var h := Hashes(cfg);
    assert h[0] == [1] && h[1] == [2] && h[2] == [3];
  }

  // ---- the receiver's three moves ----

  lemma AsksTwo(r: State, lo: int, x: MapHash, y: MapHash)
    requires r == Receiver(r.parts, lo - 1, r.received, r.outstanding, r.retries, r.awaitingResponse) && |r.parts| == 3
    requires 0 <= lo <= 1 && r.parts[lo].None? && r.parts[lo + 1].None?
    requires r.hashmap[lo] == Some(x) && r.hashmap[lo + 1] == Some(y)
    ensures RequestIndices(r) == [lo, lo + 1] && !RequestExhausted(r)
    ensures RequestNext(r) == (r.(outstanding := 2, awaitingResponse := true), Ask(Request(false, [], [x, y])))
  {
    assert WindowEnd(r) == lo + 2;
    assert RequestStop(r) == lo + 2;
    assert Missing(r.parts, lo, lo + 1) == [lo];
    assert Missing(r.parts, lo, lo + 2) == [lo, lo + 1];
    assert HashesAt(r.hashmap, [lo, lo + 1]) == [x, y];
  }

  lemma FirstArrives()
    ensures var r := Receiver([None, None, None], -1, 0, 2, MAX_RETRIES, true);
            WellFormed(r) && ReceivePart(r, [1], [1], UNTIMED) ==
              (Receiver([Some([1]), None, None], 0, 1, 1, MAX_RETRIES, false), Silent, false)
  {
    var r := Receiver([None, None, None], -1, 0, 2, MAX_RETRIES, true);
    var p: seq<Option<Bytes>> := [Some([1]), None, None];
    assert KnownSet(r.hashmap) == {0, 1, 2} && FilledSet(r.parts) == {} && FilledSet(p) == {0};
    assert FirstMissing(p, 1) == 1 && FirstMissing(p, 0) == 1;
    assert Store(r.parts, r.hashmap, 0, 2, [1], [1]) == p;
    assert Filled(NoteResponse(r, UNTIMED), [1], [1]) == Receiver(p, 0, 1, 1, MAX_RETRIES, false);
  }

  lemma TimesOut()
    ensures var r := Receiver([Some([1]), None, None], 0, 1, 1, MAX_RETRIES, false);
            WellFormed(r) && Timeout(r) ==
              (Receiver([Some([1]), None, None], 0, 1, 2, MAX_RETRIES - 1, true), Ask(Request(false, [], [[2], [3]])))
  {
    var r := Receiver([Some([1]), None, None], 0, 1, 1, MAX_RETRIES, false);
    assert KnownSet(r.hashmap) == {0, 1, 2} && FilledSet(r.parts) == {0};
    assert FirstMissing(r.parts, 1) == 1;
    AsksTwo(Retrying(r), 1, [2], [3]);
  }

  /** Part 2 lies outside the slots open for acceptance, 0 and 1. */
  lemma LastIsDropped()
    ensures var r := Receiver([Some([1]), None, None], 0, 1, 2, MAX_RETRIES - 1, true);
            WellFormed(r) && ReceivePart(r, [3], [3], UNTIMED).0.parts == r.parts
  {
    var r := Receiver([Some([1]), None, None], 0, 1, 2, MAX_RETRIES - 1, true);
    assert KnownSet(r.hashmap) == {0, 1, 2} && FilledSet(r.parts) == {0};
    assert FirstMissing(r.parts, 1) == 1;
    assert Store(r.parts, r.hashmap, 0, 2, [3], [3]) == r.parts;
    assert Filled(NoteResponse(r, UNTIMED), [3], [3]) == Receiver(r.parts, 0, 1, 2, MAX_RETRIES, false);
  }

  // ---- the run ----

  lemma OpenedThree(cfg: Config)
    requires ThreeParts(cfg) && ValidConfig(cfg)
    ensures Opened(cfg, Some(2)) == Receiver([None, None, None], -1, 0, 0, MAX_RETRIES, false)
  {
    ThreeValid(cfg);
    PageEntries(Hashes(cfg), Fresh(3, Some(2)).hashmap, 0, 0);
    assert Opened(cfg, Some(2)).hashmap == [Some([1]), Some([2]), Some([3])];
  }

  lemma FirstAsk(s: System)
    requires s.up == [] && s.down == [] && s.seen == {} && s.nextId == 0 && s.listening && !s.snd.status.Cancelled?
    ensures var (r, o) := RequestNext(Receiver([None, None, None], -1, 0, 0, MAX_RETRIES, false));
            At(Emit(s, r, o), Receiver([None, None, None], -1, 0, 2, MAX_RETRIES, true),
               [UpPacket(0, Request(false, [], [[1], [2]]), [0, 1], -1, 3)], [], {}, 1)
  {
    var r := Receiver([None, None, None], -1, 0, 0, MAX_RETRIES, false);
    AsksTwo(r, 0, [1], [2]);
    AsksTwo(Receiver([None, None, None], -1, 0, 2, MAX_RETRIES, true), 0, [1], [2]);
  }

  lemma Opening(cfg: Config) returns (events: seq<Event>)
    requires ThreeParts(cfg) && ValidConfig(cfg)
    ensures events == []
    ensures At(Run(cfg, Some(2), events), Receiver([None, None, None], -1, 0, 2, MAX_RETRIES, true),
               [UpPacket(0, Request(false, [], [[1], [2]]), [0, 1], -1, 3)], [], {}, 1)
  {
    events := [];
    OpenedOk(cfg, Some(2));
    OpenedThree(cfg);
    FirstAsk(Advertise(cfg, Some(2)));
  }

  lemma TwoPackets(cfg: Config, i: int, j: int, c: int, t: nat)
    requires 0 <= i < |cfg.parts| && 0 <= j < |cfg.parts|
    ensures PartPackets(cfg, [i, j], c, t) == [PartPacket(cfg.parts[i], i, c, t), PartPacket(cfg.parts[j], j, c, t)]
  {
  }

  /** A request for parts whose hashes are known is answered by those parts. */
  lemma Served(cfg: Config, s: System, e: UpPacket)
    requires ValidConfig(cfg) && Inv(cfg, s) && At(s, s.rcv, [e], [], s.seen, s.nextId)
    requires e.id !in s.seen && !e.req.exhausted
    ensures forall k :: 0 <= k < |e.meant| ==> 0 <= e.meant[k] < |cfg.parts|
    ensures At(Step(cfg, s, DeliverUp), s.rcv, [], PartPackets(cfg, e.meant, e.c, e.t), s.seen + {e.id}, s.nextId)
    ensures Step(cfg, s, DeliverUp).last == s.last
  {
    assert e == s.up[0] && UpOk(cfg, s.asked, s.rcv.height, s.rcv.completed, e);
    ServedAsMeant(cfg, s, e);
    ServeKeeps(s.snd, e.req);
    var reply := Reply(cfg, Serve(s.snd, e.req).1, e);
    assert reply == PartPackets(cfg, e.meant, e.c, e.t);
    assert s.down + reply == reply;
  }

  lemma ReceiveFirst(cfg: Config, s: System, b: DownPacket)
    requires ThreeParts(cfg) && Sane(cfg, s)
    requires At(s, Receiver([None, None, None], -1, 0, 2, MAX_RETRIES, true), [], [PartPacket([1], 0, -1, 3), b], s.seen, s.nextId)
    ensures At(Step(cfg, s, DeliverDown(UNTIMED)), Receiver([Some([1]), None, None], 0, 1, 1, MAX_RETRIES, false), [], [b], s.seen, s.nextId)
  {
    FirstArrives();
    assert s.down[1..] == [b];
  }

  lemma AskAgain(cfg: Config, s: System)
    requires Sane(cfg, s)
    requires At(s, Receiver([Some([1]), None, None], 0, 1, 1, MAX_RETRIES, false), [], [], s.seen, 1)
    ensures var t := Step(cfg, s, ReceiverTimeout);
            var e := UpPacket(1, Request(false, [], [[2], [3]]), [1, 2], 0, 3);
            At(t, Receiver([Some([1]), None, None], 0, 1, 2, MAX_RETRIES - 1, true), [e], [], s.seen, 2) && t.last == Some(e)
  {
    TimesOut();
    AsksTwo(Receiver([Some([1]), None, None], 0, 1, 2, MAX_RETRIES - 1, true), 1, [2], [3]);
  }

  lemma ReceiveLast(cfg: Config, s: System)
    requires ThreeParts(cfg) && Sane(cfg, s)
    requires At(s, Receiver([Some([1]), None, None], 0, 1, 2, MAX_RETRIES - 1, true), [], [PartPacket([3], 2, 0, 3)], s.seen, s.nextId)
    ensures Step(cfg, s, DeliverDown(UNTIMED)).rcv.parts == s.rcv.parts
  {
    LastIsDropped();
  }

  lemma ServeTwo(cfg: Config, events: seq<Event>, r: State, e: UpPacket, seen: set<nat>, nextId: nat, x: DownPacket, y: DownPacket)
    requires ValidConfig(cfg) && At(Run(cfg, Some(2), events), r, [e], [], seen, nextId) && e.id !in seen && !e.req.exhausted
    requires |e.meant| == 2 && 0 <= e.meant[0] < |cfg.parts| && 0 <= e.meant[1] < |cfg.parts|
    requires x == PartPacket(cfg.parts[e.meant[0]], e.meant[0], e.c, e.t) && y == PartPacket(cfg.parts[e.meant[1]], e.meant[1], e.c, e.t)
    ensures var t := Run(cfg, Some(2), events + [DeliverUp]);
            At(t, r, [], [x, y], seen + {e.id}, nextId) && t.last == Run(cfg, Some(2), events).last
  {
    RunInv(cfg, Some(2), events);
    Served(cfg, Run(cfg, Some(2), events), e);
    assert e.meant == [e.meant[0], e.meant[1]];
    TwoPackets(cfg, e.meant[0], e.meant[1], e.c, e.t);
    RunSnoc(cfg, Some(2), events, DeliverUp);
  }

  lemma LoseFirst(cfg: Config, events: seq<Event>, r: State, down: seq<DownPacket>, seen: set<nat>, nextId: nat)
    requires ValidConfig(cfg) && At(Run(cfg, Some(2), events), r, [], down, seen, nextId) && down != []
    ensures var t := Run(cfg, Some(2), events + [DropDown(0)]);
            At(t, r, [], down[1..], seen, nextId) && t.last == Run(cfg, Some(2), events).last
  {
    RunSnoc(cfg, Some(2), events, DropDown(0));
    assert RemoveAt(down, 0) == down[1..];
  }

  lemma ReceiveOne(cfg: Config, events: seq<Event>, b: DownPacket, seen: set<nat>)
    requires ThreeParts(cfg) && ValidConfig(cfg)
    requires At(Run(cfg, Some(2), events), Receiver([None, None, None], -1, 0, 2, MAX_RETRIES, true), [],
                [PartPacket([1], 0, -1, 3), b], seen, 1)
    ensures At(Run(cfg, Some(2), events + [DeliverDown(UNTIMED)]),
               Receiver([Some([1]), None, None], 0, 1, 1, MAX_RETRIES, false), [], [b], seen, 1)
  {
    ReceiveFirst(cfg, Run(cfg, Some(2), events), b);
    RunSnoc(cfg, Some(2), events, DeliverDown(UNTIMED));
  }

  lemma AskTwo(cfg: Config, events: seq<Event>, seen: set<nat>)
    requires ValidConfig(cfg)
    requires At(Run(cfg, Some(2), events), Receiver([Some([1]), None, None], 0, 1, 1, MAX_RETRIES, false), [], [], seen, 1)
    ensures var t := Run(cfg, Some(2), events + [ReceiverTimeout]);
            var e := UpPacket(1, Request(false, [], [[2], [3]]), [1, 2], 0, 3);
            At(t, Receiver([Some([1]), None, None], 0, 1, 2, MAX_RETRIES - 1, true), [e], [], seen, 2) && t.last == Some(e)
  {
    AskAgain(cfg, Run(cfg, Some(2), events));
    RunSnoc(cfg, Some(2), events, ReceiverTimeout);
  }

  lemma FirstServed(cfg: Config, opening: seq<Event>) returns (events: seq<Event>)
    requires ThreeParts(cfg) && ValidConfig(cfg)
    requires At(Run(cfg, Some(2), opening), Receiver([None, None, None], -1, 0, 2, MAX_RETRIES, true),
                [UpPacket(0, Request(false, [], [[1], [2]]), [0, 1], -1, 3)], [], {}, 1)
    ensures events == opening + [DeliverUp]
    ensures At(Run(cfg, Some(2), events), Receiver([None, None, None], -1, 0, 2, MAX_RETRIES, true), [],
               [PartPacket([1], 0, -1, 3), PartPacket([2], 1, -1, 3)], {0}, 1)
  {
    var none: set<nat> := {};
    ServeTwo(cfg, opening, Receiver([None, None, None], -1, 0, 2, MAX_RETRIES, true),
             UpPacket(0, Request(false, [], [[1], [2]]), [0, 1], -1, 3), none, 1,
             PartPacket([1], 0, -1, 3), PartPacket([2], 1, -1, 3));
    assert none + {0} == {0};
    events := opening + [DeliverUp];
  }

  lemma FirstReceived(cfg: Config, before: seq<Event>) returns (events: seq<Event>)
    requires ThreeParts(cfg) && ValidConfig(cfg)
    requires At(Run(cfg, Some(2), before), Receiver([None, None, None], -1, 0, 2, MAX_RETRIES, true), [],
                [PartPacket([1], 0, -1, 3), PartPacket([2], 1, -1, 3)], {0}, 1)
    ensures events == before + [DeliverDown(UNTIMED)]
    ensures At(Run(cfg, Some(2), events), Receiver([Some([1]), None, None], 0, 1, 1, MAX_RETRIES, false), [],
               [PartPacket([2], 1, -1, 3)], {0}, 1)
  {
    ReceiveOne(cfg, before, PartPacket([2], 1, -1, 3), {0});
    events := before + [DeliverDown(UNTIMED)];
  }

  /** The loss of part 1. */
  lemma FirstLost(cfg: Config, before: seq<Event>) returns (events: seq<Event>)
    requires ValidConfig(cfg)
    requires At(Run(cfg, Some(2), before), Receiver([Some([1]), None, None], 0, 1, 1, MAX_RETRIES, false), [],
                [PartPacket([2], 1, -1, 3)], {0}, 1)
    ensures events == before + [DropDown(0)]
    ensures At(Run(cfg, Some(2), events), Receiver([Some([1]), None, None], 0, 1, 1, MAX_RETRIES, false), [], [], {0}, 1)
  {
    var down := [PartPacket([2], 1, -1, 3)];
    LoseFirst(cfg, before, Receiver([Some([1]), None, None], 0, 1, 1, MAX_RETRIES, false), down, {0}, 1);
    assert down[1..] == [];
    events := before + [DropDown(0)];
  }

  lemma SecondAsked(cfg: Config, before: seq<Event>) returns (events: seq<Event>)
    requires ValidConfig(cfg)
    requires At(Run(cfg, Some(2), before), Receiver([Some([1]), None, None], 0, 1, 1, MAX_RETRIES, false), [], [], {0}, 1)
    ensures events == before + [ReceiverTimeout]
    ensures var s := Run(cfg, Some(2), events);
            var e := UpPacket(1, Request(false, [], [[2], [3]]), [1, 2], 0, 3);
            At(s, Receiver([Some([1]), None, None], 0, 1, 2, MAX_RETRIES - 1, true), [e], [], {0}, 2) && s.last == Some(e)
  {
    AskTwo(cfg, before, {0});
    events := before + [ReceiverTimeout];
  }

  lemma SecondServed(cfg: Config, before: seq<Event>) returns (events: seq<Event>)
    requires ThreeParts(cfg) && ValidConfig(cfg)
    requires var s := Run(cfg, Some(2), before);
             var e := UpPacket(1, Request(false, [], [[2], [3]]), [1, 2], 0, 3);
             At(s, Receiver([Some([1]), None, None], 0, 1, 2, MAX_RETRIES - 1, true), [e], [], {0}, 2) && s.last == Some(e)
    ensures events == before + [DeliverUp]
    ensures var s := Run(cfg, Some(2), events);
            && At(s, Receiver([Some([1]), None, None], 0, 1, 2, MAX_RETRIES - 1, true), [],
                  [PartPacket([2], 1, 0, 3), PartPacket([3], 2, 0, 3)], {0, 1}, 2)
            && s.last == Some(UpPacket(1, Request(false, [], [[2], [3]]), [1, 2], 0, 3))
  {
    ServeTwo(cfg, before, Receiver([Some([1]), None, None], 0, 1, 2, MAX_RETRIES - 1, true),
             UpPacket(1, Request(false, [], [[2], [3]]), [1, 2], 0, 3), {0}, 2,
             PartPacket([2], 1, 0, 3), PartPacket([3], 2, 0, 3));
    assert {0} + {1} == {0, 1};
    events := before + [DeliverUp];
  }

  /** The loss of part 1 once more. */
  lemma SecondLost(cfg: Config, before: seq<Event>) returns (events: seq<Event>)
    requires ValidConfig(cfg)
    requires var s := Run(cfg, Some(2), before);
             && At(s, Receiver([Some([1]), None, None], 0, 1, 2, MAX_RETRIES - 1, true), [],
                   [PartPacket([2], 1, 0, 3), PartPacket([3], 2, 0, 3)], {0, 1}, 2)
             && s.last == Some(UpPacket(1, Request(false, [], [[2], [3]]), [1, 2], 0, 3))
    ensures events == before + [DropDown(0)]
    ensures var s := Run(cfg, Some(2), events);
            && At(s, Receiver([Some([1]), None, None], 0, 1, 2, MAX_RETRIES - 1, true), [], [PartPacket([3], 2, 0, 3)], {0, 1}, 2)
            && s.last == Some(UpPacket(1, Request(false, [], [[2], [3]]), [1, 2], 0, 3))
  {
    var down := [PartPacket([2], 1, 0, 3), PartPacket([3], 2, 0, 3)];
    LoseFirst(cfg, before, Receiver([Some([1]), None, None], 0, 1, 2, MAX_RETRIES - 1, true), down, {0, 1}, 2);
    assert down[1..] == [PartPacket([3], 2, 0, 3)];
    events := before + [DropDown(0)];
  }

  lemma Joined()
    ensures [] + [DeliverUp] + [DeliverDown(UNTIMED)] + [DropDown(0)] + [ReceiverTimeout] + [DeliverUp] + [DropDown(0)] == LATE[..6]
  {
  }

  lemma RoundsTogether(cfg: Config) returns (events: seq<Event>)
    requires ThreeParts(cfg) && ValidConfig(cfg)
    ensures events == LATE[..6]
    ensures var s := Run(cfg, Some(2), events);
            && At(s, Receiver([Some([1]), None, None], 0, 1, 2, MAX_RETRIES - 1, true), [], [PartPacket([3], 2, 0, 3)], {0, 1}, 2)
            && s.last == Some(UpPacket(1, Request(false, [], [[2], [3]]), [1, 2], 0, 3))
  {
    var e0 := Opening(cfg);
    var e1 := FirstServed(cfg, e0);
    var e2 := FirstReceived(cfg, e1);
    var e3 := FirstLost(cfg, e2);
    var e4 := SecondAsked(cfg, e3);
    var e5 := SecondServed(cfg, e4);
    events := SecondLost(cfg, e5);
    Joined();
  }

  /** In this run part 2 is in the last request sent, that request has been served, the part is the one packet under
      way, and after its delivery its slot is still empty. */
  lemma RequestedPartIgnored(cfg: Config) returns (events: seq<Event>)
    requires ThreeParts(cfg)
    ensures ValidConfig(cfg) && events == LATE[..6]
    ensures var s := Run(cfg, Some(2), events);
            && s.last.Some? && 2 in s.last.value.meant && s.last.value.id in s.seen
            && s.listening && !s.rcv.status.Failed?
            && s.down == [PartPacket(cfg.parts[2], 2, 0, 3)]
    ensures var t := Run(cfg, Some(2), events + [DeliverDown(UNTIMED)]);
            |t.rcv.parts| == 3 && t.rcv.parts[2].None?
  {
    ThreeValid(cfg);
    events := RoundsTogether(cfg);
    LastStep(cfg, events);
    assert 2 in [1, 2];
  }

  lemma LastStep(cfg: Config, events: seq<Event>)
    requires ThreeParts(cfg) && ValidConfig(cfg)
    requires At(Run(cfg, Some(2), events), Receiver([Some([1]), None, None], 0, 1, 2, MAX_RETRIES - 1, true), [],
                [PartPacket([3], 2, 0, 3)], {0, 1}, 2)
    ensures Run(cfg, Some(2), events + [DeliverDown(UNTIMED)]).rcv.parts == [Some([1]), None, None]
  {
    ReceiveLast(cfg, Run(cfg, Some(2), events));
    RunSnoc(cfg, Some(2), events, DeliverDown(UNTIMED));
  }
}
