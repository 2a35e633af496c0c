/** Transfers over channels that lose nothing: every schedule of deliveries is finite and can only
    stop when the whole resource has arrived. */
module ResourceLiveness {
  import opened Prelude
  import opened ResourceReceiver
  import opened ResourceSender
  import opened ResourceTransfer

  /** Nothing beyond the completed prefix has been stored. */
  ghost predicate Contiguous(r: State) {
    forall i :: 0 <= i < |r.parts| && r.completed < i ==> r.parts[i].None?
  }

  ghost predicate Consecutive(s: seq<int>, from: int) {
    forall k :: 0 <= k < |s| ==> s[k] == from + k
  }

  ghost predicate SentUpTo(snd: Sender, c: int) {
    forall i :: 0 <= i < |snd.sent| && i <= c ==> snd.sent[i]
  }

  /** Parts below `end` have been sent; when that is all of them the sender awaits the proof. */
  ghost predicate SentBelow(snd: Sender, end: int) {
    SentUpTo(snd, end - 1) && (end >= |snd.sent| ==> snd.status == AwaitingProof)
  }

  /** Request e asks for the parts right after the completed prefix, or for the next page. */
  ghost predicate Asks(r: State, e: UpPacket) {
    && e.c == r.completed && e.t == r.height && r.completed + 1 < |r.parts|
    && Consecutive(e.meant, r.completed + 1)
    && r.outstanding == |e.meant| && e.req.exhausted == r.waiting
    && (r.outstanding > 0 || r.waiting)
  }

  /** The next `outstanding` parts are on their way down in order, followed by the page if one was asked for. */
  ghost predicate Answers(r: State, down: seq<DownPacket>) {
    && r.outstanding >= 0 && |down| == r.outstanding + (if r.waiting then 1 else 0)
    && (forall k :: 0 <= k < r.outstanding ==> down[k].PartPacket? && down[k].index == r.completed + 1 + k)
    && (r.waiting ==> down[r.outstanding].PagePacket? && down[r.outstanding].t == r.height)
  }

  ghost predicate Asking(s: System) {
    && |s.up| == 1 && s.down == [] && s.up[0].id !in s.seen && s.up[0].id < s.nextId
    && Asks(s.rcv, s.up[0])
    && SentUpTo(s.snd, s.rcv.completed)
  }

  ghost predicate Answering(s: System) {
    && s.up == [] && s.down != [] && Answers(s.rcv, s.down)
    && s.rcv.completed + 1 < |s.rcv.parts|
    && SentBelow(s.snd, s.rcv.completed + 1 + s.rcv.outstanding)
  }

  /** Everything has arrived and nothing is in flight. */
  ghost predicate Finished(s: System) {
    && s.up == [] && s.down == []
    && s.rcv.completed + 1 == |s.rcv.parts| && s.rcv.assemblyLock
    && SentBelow(s.snd, |s.rcv.parts|)
  }

  /** The receiver is in the middle of an orderly transfer. */
  ghost predicate Orderly(r: State) {
    r.status.Transferring? && Contiguous(r) && (r.completed + 1 < |r.parts| ==> !r.assemblyLock)
  }

  ghost predicate Lockstep(cfg: Config, s: System) {
    && Inv(cfg, s) && s.listening && !s.snd.status.Cancelled? && Orderly(s.rcv)
    && (forall id :: id in s.seen ==> id < s.nextId)
    && (Asking(s) || Answering(s) || Finished(s))
  }

  /** Missing parts and missing hash entries, weighted above the packets in flight. */
  function Measure(s: System): int {
    2 * ((|s.rcv.parts| - 1 - s.rcv.completed) + (|s.rcv.parts| - s.rcv.height)) + |s.up|
  }

  // ---- requests ----

  lemma {:induction false} MissingConsecutive(parts: seq<Option<Bytes>>, lo: nat, hi: nat)
    requires lo <= hi <= |parts|
    requires forall i :: lo <= i < hi ==> parts[i].None?
    ensures |Missing(parts, lo, hi)| == hi - lo && Consecutive(Missing(parts, lo, hi), lo)
  {
    if lo < hi {
      MissingConsecutive(parts, lo, hi - 1);
    }
  }

  lemma AskIndices(cfg: Config, r: State)
    requires ReceiverOk(cfg, r) && Contiguous(r) && r.completed + 1 < |r.parts|
    ensures Consecutive(RequestIndices(r), r.completed + 1)
    ensures |RequestIndices(r)| > 0 || RequestExhausted(r)
  {
    MissingConsecutive(r.parts, r.completed + 1, RequestStop(r));
  }

  lemma AskIsSent(cfg: Config, r: State)
    requires ReceiverOk(cfg, r) && !r.status.Failed? && !r.waiting
    ensures var (r', o) := RequestNext(r);
            && o.Ask? && o.req.exhausted == r'.waiting == RequestExhausted(r)
            && r'.outstanding == |RequestIndices(r)|
  {
    RequestSays(cfg, r);
  }

  /** With the prefix contiguous the next request asks for what comes right after it. */
  lemma AskFrom(cfg: Config, r: State, id: nat)
    requires ReceiverOk(cfg, r) && Orderly(r) && !r.waiting && r.completed + 1 < |r.parts|
    ensures var (r', o) := RequestNext(r);
            && o.Ask? && Orderly(r') && Asks(r', UpPacket(id, o.req, RequestIndices(r'), r'.completed, r'.height))
            && r'.completed == r.completed && r'.height == r.height && r'.parts == r.parts
  {
    RequestNextKeeps(r);
    AskIndices(cfg, r);
    AskIsSent(cfg, r);
    SameRequest(r, RequestNext(r).0);
  }

  // ---- one part arrives in order ----

  lemma FillNext(parts: seq<Option<Bytes>>, i: nat, data: Bytes)
    requires i < |parts| && i == FirstMissing(parts, 0)
    requires forall j :: i <= j < |parts| ==> parts[j].None?
    ensures var p := parts[i := Some(data)];
            FirstMissing(p, 0) == i + 1 && |FilledSet(p)| == |FilledSet(parts)| + 1
  {
    var p := parts[i := Some(data)];
    assert FilledSet(p) == FilledSet(parts) + {i};
    assert forall j :: 0 <= j <= i ==> p[j].Some?;
    assert i + 1 < |p| ==> p[i + 1].None?;
  }

  lemma StoreNext(cfg: Config, r: State, d: DownPacket)
    requires ValidConfig(cfg) && ReceiverOk(cfg, r) && Contiguous(r)
    requires d.PartPacket? && DownOk(cfg, r.height, r.completed, d) && d.index == r.completed + 1
    ensures var lo := Max(r.completed, 0);
            Store(r.parts, r.hashmap, lo, lo + r.window, cfg.mapHash(d.data), d.data) == r.parts[d.index := Some(d.data)]
  {
    var lo := Max(r.completed, 0);
    var p := Store(r.parts, r.hashmap, lo, lo + r.window, cfg.mapHash(d.data), d.data);
    var q := r.parts[d.index := Some(d.data)];
    forall i | 0 <= i < |r.parts| ensures p[i] == q[i] {
      if i == d.index {
        assert r.hashmap[i] == Some(Hashes(cfg)[i]);
      } else if p[i] != r.parts[i] {
        SlotIsMeant(cfg, r, d, i);
      }
    }
  }

  lemma NextPartFills(cfg: Config, r: State, d: DownPacket)
    requires ValidConfig(cfg) && ReceiverOk(cfg, r) && !r.status.Failed? && Contiguous(r)
    requires d.PartPacket? && DownOk(cfg, r.height, r.completed, d) && d.index == r.completed + 1
    ensures var r1 := Filled(r, d.data, cfg.mapHash(d.data));
            && r1.parts == r.parts[d.index := Some(d.data)]
            && r1.completed == r.completed + 1 && Contiguous(r1)
            && r1.outstanding == r.outstanding - 1
  {
    StoreNext(cfg, r, d);
    FillNext(r.parts, d.index, d.data);
  }

  // ---- steps ----

  lemma ServedSent(snd: Sender, req: Request, c: int)
    requires Consistent(snd) && !snd.status.Cancelled? && !Serve(snd, req).1.sequencingError
    requires Consecutive(Serve(snd, req).1.parts, c + 1)
    requires SentUpTo(snd, c)
    ensures SentBelow(Serve(snd, req).0, c + 1 + |Serve(snd, req).1.parts|)
  {
    ServeKeeps(snd, req);
    var (t, resp) := Serve(snd, req);
    forall i | 0 <= i < |t.sent| && i < c + 1 + |resp.parts| ensures t.sent[i] {
      if i <= c {
        assert i in SentSet(snd.sent);
        assert i in SentSet(t.sent);
      } else {
        assert resp.parts[i - c - 1] == i;
      }
    }
  }

  lemma ReplyAnswers(cfg: Config, r: State, e: UpPacket, resp: Response)
    requires Asks(r, e) && resp.parts == e.meant && (resp.page.Some? <==> e.req.exhausted)
    requires forall k :: 0 <= k < |resp.parts| ==> 0 <= resp.parts[k] < |cfg.parts|
    ensures Reply(cfg, resp, e) != [] && Answers(r, Reply(cfg, resp, e))
  {
  }

  /** What the sender makes of the request in flight. */
  lemma ServeMakes(cfg: Config, s: System)
    requires ValidConfig(cfg) && Inv(cfg, s) && !s.snd.status.Cancelled? && Asking(s)
    ensures var (snd, resp) := Serve(s.snd, s.up[0].req);
            && resp.parts == s.up[0].meant && (resp.page.Some? <==> s.up[0].req.exhausted)
            && (forall k :: 0 <= k < |resp.parts| ==> 0 <= resp.parts[k] < |cfg.parts|)
            && !snd.status.Cancelled? && SentBelow(snd, s.rcv.completed + 1 + |resp.parts|)
  {
    var e := s.up[0];
    ServeKeeps(s.snd, e.req);
    assert UpOk(cfg, s.asked, s.rcv.height, s.rcv.completed, e);
    ServedAsMeant(cfg, s, e);
    ServedSent(s.snd, e.req, s.rcv.completed);
  }

  /** Serving the request in flight turns asking into answering. */
  lemma ServePhase(cfg: Config, s: System)
    requires ValidConfig(cfg) && Inv(cfg, s) && !s.snd.status.Cancelled? && Asking(s)
    requires forall id :: id in s.seen ==> id < s.nextId
    ensures var s' := ServeHead(cfg, s);
            && Answering(s') && s'.rcv == s.rcv && s'.listening == s.listening && !s'.snd.status.Cancelled?
            && (forall id :: id in s'.seen ==> id < s'.nextId)
  {
    var e := s.up[0];
    ServeMakes(cfg, s);
    ReplyAnswers(cfg, s.rcv, e, Serve(s.snd, e.req).1);
    assert s.down + Reply(cfg, Serve(s.snd, e.req).1, e) == Reply(cfg, Serve(s.snd, e.req).1, e);
  }

  lemma ServeStep(cfg: Config, s: System)
    requires ValidConfig(cfg) && Lockstep(cfg, s) && Asking(s)
    ensures var s' := ServeHead(cfg, s); Lockstep(cfg, s') && Measure(s') < Measure(s)
  {
    ServeInv(cfg, s);
    ServePhase(cfg, s);
  }

  /** The end of receive_part in the answering phase: done, the next round, or more to come. */
  lemma PartConcluded(cfg: Config, r: State, down: seq<DownPacket>, obs: Observation, id: nat)
    requires ReceiverOk(cfg, r) && Orderly(r) && !r.assemblyLock && Answers(r, down)
    requires DownsOk(cfg, r.height, r.completed, down)
    ensures var (r', o, start) := AfterFill(r, obs);
            && Orderly(r') && r'.completed == r.completed && r'.height == r.height && |r'.parts| == |r.parts|
            && if r.completed + 1 == |r.parts| then o == Silent && r'.assemblyLock && down == [] && r'.outstanding == 0
               else if down != [] then o == Silent && Answers(r', down) && r'.outstanding == r.outstanding
               else o.Ask? && r.outstanding == 0
                    && Asks(r', UpPacket(id, o.req, RequestIndices(r'), r'.completed, r'.height))
  {
    AfterFillKeeps(r, obs);
    AllFilled(r.parts);
    if r.received == |r.parts| {
      assert r.parts[r.completed].Some?;
      assert |down| > 0 ==> DownOk(cfg, r.height, r.completed, down[0]);
    } else if r.outstanding == 0 {
      var r2 := EndRound(r, obs);
      WindowsKeep(r, r2);
      if !r.waiting {
        AskFrom(cfg, r2, id);
      }
    }
  }

  /** What the receiver's next output makes of the two channels. */
  lemma EmitPhase(s: System, r: State, o: Output)
    requires s.up == [] && (forall id :: id in s.seen ==> id < s.nextId)
    requires |r.hashmap| == |r.parts| && -1 <= r.completed < |r.parts|
    requires if r.completed + 1 == |r.parts| then o == Silent && r.assemblyLock && s.down == [] && r.outstanding == 0
             else if s.down != [] then o == Silent && Answers(r, s.down)
             else o.Ask? && r.completed + 1 < |r.parts|
                  && Asks(r, UpPacket(s.nextId, o.req, RequestIndices(r), r.completed, r.height))
    requires SentUpTo(s.snd, r.completed)
    requires s.down != [] || r.completed + 1 == |r.parts| ==> SentBelow(s.snd, r.completed + 1 + r.outstanding)
    ensures var s' := Emit(s, r, o);
            && (Asking(s') || Answering(s') || Finished(s'))
            && (forall id :: id in s'.seen ==> id < s'.nextId)
            && |s'.up| <= 1 && s'.rcv == r && s'.listening == s.listening && s'.snd == s.snd
  {
  }

  lemma RestAnswers(cfg: Config, r: State, r1: State, down: seq<DownPacket>)
    requires Answers(r, down) && r.outstanding > 0 && DownsOk(cfg, r.height, r.completed, down)
    requires r1.outstanding == r.outstanding - 1 && r1.completed == r.completed + 1
    requires r1.waiting == r.waiting && r1.height == r.height
    ensures Answers(r1, down[1..]) && DownsOk(cfg, r1.height, r1.completed, down[1..])
  {
  }

  /** The receiver after the next part arrived, before receive_part concludes. */
  lemma PartFilled(cfg: Config, s: System, obs: Observation)
    requires ValidConfig(cfg) && Inv(cfg, s) && Orderly(s.rcv) && Answering(s) && s.rcv.outstanding > 0
    ensures var d := s.down[0]; var r0 := NoteResponse(s.rcv, obs); 
            && d.PartPacket? && |r0.hashmap| == |r0.parts|
            && var r1 := Filled(r0, d.data, cfg.mapHash(d.data));
               && ReceiverOk(cfg, r1) && Orderly(r1) && !r1.assemblyLock
               && r1.completed == s.rcv.completed + 1 && r1.height == s.rcv.height && |r1.parts| == |s.rcv.parts|
               && r1.outstanding == s.rcv.outstanding - 1
               && Answers(r1, s.down[1..]) && DownsOk(cfg, r1.height, r1.completed, s.down[1..])
  {
    var d := s.down[0];
    assert DownOk(cfg, s.rcv.height, s.rcv.completed, d);
    var r0 := NoteResponse(s.rcv, obs);
    NextPartFills(cfg, r0, d);
    FilledOk(cfg, r0, d);
    RestAnswers(cfg, s.rcv, Filled(r0, d.data, cfg.mapHash(d.data)), s.down);
  }

  /** What receive_part comes to for a receiver that has not failed. */
  lemma PartAccepted(cfg: Config, s: System, obs: Observation, r1: State)
    requires WellFormed(s.rcv) && s.listening && s.down != [] && s.down[0].PartPacket? && !s.rcv.status.Failed?
    requires r1 == Filled(NoteResponse(s.rcv, obs), s.down[0].data, cfg.mapHash(s.down[0].data)) && WellFormed(r1)
    requires var r := AfterFill(r1, obs).0; |r.hashmap| == |r.parts| && -1 <= r.completed < |r.parts|
    ensures var (r, o, start) := AfterFill(r1, obs);
            AcceptHead(cfg, s, obs) == Emit(Started(s.(down := s.down[1..]), start), r, o)
  {
  }

  /** One part arrives in order: the prefix grows by one. */
  lemma PartStep(cfg: Config, s: System, obs: Observation)
    requires ValidConfig(cfg) && Lockstep(cfg, s) && Answering(s) && s.rcv.outstanding > 0
    ensures var s' := AcceptHead(cfg, s, obs); Lockstep(cfg, s') && Measure(s') < Measure(s)
  {
    AcceptKeeps(cfg, s, obs);
    PartFilled(cfg, s, obs);
    var r1 := Filled(NoteResponse(s.rcv, obs), s.down[0].data, cfg.mapHash(s.down[0].data));
    PartConcluded(cfg, r1, s.down[1..], obs, s.nextId);
    AfterFillKeeps(r1, obs);
    PartAccepted(cfg, s, obs, r1);
    var (r, o, start) := AfterFill(r1, obs);
    EmitPhase(Started(s.(down := s.down[1..]), start), r, o);
  }

  /** The page arrives: the table grows and the next request goes out. */
  lemma PageFilled(cfg: Config, s: System)
    requires ValidConfig(cfg) && Inv(cfg, s) && Orderly(s.rcv) && Answering(s) && s.rcv.outstanding == 0
    ensures s.down[0].PagePacket? && |s.down| == 1
    ensures var page := s.down[0].page; var r0 := s.rcv.(retries := MAX_RETRIES);
            var (r, o) := HashmapUpdate(r0, page.segment, page.hashes);
            && o.Ask? && Orderly(r) && r.completed == s.rcv.completed && r.height > s.rcv.height
            && |r.parts| == |s.rcv.parts| && |r.hashmap| == |r.parts| && -1 <= r.completed < |r.parts|
            && Asks(r, UpPacket(s.nextId, o.req, RequestIndices(r), r.completed, r.height))
  {
    var d := s.down[0];
    assert DownOk(cfg, s.rcv.height, s.rcv.completed, d);
    var r0 := s.rcv.(retries := MAX_RETRIES);
    HashmapUpdateKeeps(r0, d.page.segment, d.page.hashes);
    PageExtends(cfg, r0, d.page, d.t);
    var hm := Put(r0.hashmap, d.t, d.page.hashes);
    AskFrom(cfg, r0.(status := Transferring, hashmap := hm, height := |KnownSet(hm)|, waiting := false), s.nextId);
  }

  lemma PageStep(cfg: Config, s: System, obs: Observation)
    requires ValidConfig(cfg) && Lockstep(cfg, s) && Answering(s) && s.rcv.outstanding == 0
    ensures var s' := AcceptHead(cfg, s, obs); Lockstep(cfg, s') && Measure(s') < Measure(s)
  {
    AcceptKeeps(cfg, s, obs);
    PageFilled(cfg, s);
    var page := s.down[0].page;
    var s1 := s.(down := s.down[1..]);
    var (r, o) := HashmapUpdate(s.rcv.(retries := MAX_RETRIES), page.segment, page.hashes);
    EmitPhase(s1, r, o);
    assert AcceptHead(cfg, s, obs) == Emit(s1, r, o);
  }

  // ---- lossless runs ----

  /** The event delivers a packet that is there. */
  ghost predicate Delivers(s: System, e: Event) {
    (e.DeliverUp? && s.up != []) || (e.DeliverDown? && s.down != [])
  }

  /** Every event of the run delivers a packet: nothing is lost or repeated and no timer expires. */
  ghost predicate Lossless(cfg: Config, previousWindow: Option<nat>, events: seq<Event>)
    requires ValidConfig(cfg) && InheritedWindow(previousWindow)
  {
    forall k :: 0 <= k < |events| ==> Delivers(Run(cfg, previousWindow, events[..k]), events[k])
  }

  lemma DeliveryStep(cfg: Config, s: System, e: Event)
    requires ValidConfig(cfg) && Lockstep(cfg, s) && Delivers(s, e)
    ensures Lockstep(cfg, Step(cfg, s, e)) && Measure(Step(cfg, s, e)) < Measure(s)
  {
    if e.DeliverUp? {
      ServeStep(cfg, s);
    } else if s.rcv.outstanding > 0 {
      PartStep(cfg, s, e.obs);
    } else {
      PageStep(cfg, s, e.obs);
    }
  }

  lemma StartLockstep(cfg: Config, previousWindow: Option<nat>)
    requires ValidConfig(cfg) && InheritedWindow(previousWindow)
    ensures var s := Start(cfg, previousWindow); Lockstep(cfg, s) && Measure(s) <= 4 * |cfg.parts| + 1
  {
    StartInv(cfg, previousWindow);
    OpenedOk(cfg, previousWindow);
    var r := Opened(cfg, previousWindow);
    AskFrom(cfg, r, 0);
    RequestNextKeeps(r);
    EmitPhase(Advertise(cfg, previousWindow), RequestNext(r).0, RequestNext(r).1);
  }

  lemma {:induction false} LosslessRun(cfg: Config, previousWindow: Option<nat>, events: seq<Event>)
    requires ValidConfig(cfg) && InheritedWindow(previousWindow) && Lossless(cfg, previousWindow, events)
    ensures var s := Run(cfg, previousWindow, events);
            Lockstep(cfg, s) && Measure(s) + |events| <= 4 * |cfg.parts| + 1
  {
    if events == [] {
      StartLockstep(cfg, previousWindow);
    } else {
      var prefix := events[..|events| - 1];
      forall k | 0 <= k < |prefix| ensures Delivers(Run(cfg, previousWindow, prefix[..k]), prefix[k]) {
        assert prefix[..k] == events[..k];
      }
      LosslessRun(cfg, previousWindow, prefix);
      DeliveryStep(cfg, Run(cfg, previousWindow, prefix), events[|events| - 1]);
    }
  }

  /** A transfer of n parts with nothing lost makes at most 4n + 1 deliveries, whatever the schedule and
      however the window moves. */
  lemma LosslessTerminates(cfg: Config, previousWindow: Option<nat>, events: seq<Event>)
    requires ValidConfig(cfg) && InheritedWindow(previousWindow) && Lossless(cfg, previousWindow, events)
    ensures |events| <= 4 * |cfg.parts| + 1
  {
    LosslessRun(cfg, previousWindow, events);
  }

  /** And when no delivery is left, every slot holds the sender's part, every hash page was fetched, the
      sender has sent every part and awaits the proof, and the receiver has started assembly. */
  lemma LosslessCompletes(cfg: Config, previousWindow: Option<nat>, events: seq<Event>)
    requires ValidConfig(cfg) && InheritedWindow(previousWindow) && Lossless(cfg, previousWindow, events)
    ensures var s := Run(cfg, previousWindow, events); var n := |cfg.parts|;
            s.up == [] && s.down == [] ==>
            && |s.rcv.parts| == n && (forall i :: 0 <= i < n ==> s.rcv.parts[i] == Some(cfg.parts[i]))
            && s.rcv.height == n && s.rcv.received == n && s.rcv.assemblyLock
            && |s.snd.sent| == n && (forall i :: 0 <= i < n ==> s.snd.sent[i]) && s.snd.status == AwaitingProof
  {
    LosslessRun(cfg, previousWindow, events);
    var s := Run(cfg, previousWindow, events);
    if s.up == [] && s.down == [] {
      AllFilled(s.rcv.parts);
      assert s.rcv.parts[s.rcv.completed].Some?;
    }
  }

  /** Such a run exists for every resource: keep delivering whatever is there. */
  lemma LosslessRunExists(cfg: Config, previousWindow: Option<nat>, obs: Observation) returns (events: seq<Event>)
    requires ValidConfig(cfg) && InheritedWindow(previousWindow)
    ensures Lossless(cfg, previousWindow, events)
    ensures Run(cfg, previousWindow, events).up == [] && Run(cfg, previousWindow, events).down == []
  {
    events := [];
    while Run(cfg, previousWindow, events).up != [] || Run(cfg, previousWindow, events).down != []
      invariant Lossless(cfg, previousWindow, events)
      decreases 4 * |cfg.parts| + 1 - |events|
    {
      var e := if Run(cfg, previousWindow, events).up != [] then DeliverUp else DeliverDown(obs);
      LosslessSnoc(cfg, previousWindow, events, e);
      LosslessTerminates(cfg, previousWindow, events + [e]);
      events := events + [e];
    }
  }

  lemma LosslessSnoc(cfg: Config, previousWindow: Option<nat>, events: seq<Event>, e: Event)
    requires ValidConfig(cfg) && InheritedWindow(previousWindow) && Lossless(cfg, previousWindow, events)
    requires Delivers(Run(cfg, previousWindow, events), e)
    ensures Lossless(cfg, previousWindow, events + [e])
  {
    var longer := events + [e];
    forall k | 0 <= k < |longer|
      ensures Delivers(Run(cfg, previousWindow, longer[..k]), longer[k])
    {
      if k < |events| {
        assert longer[..k] == events[..k];
      } else {
        assert longer[..k] == events;
      }
    }
  }
}
