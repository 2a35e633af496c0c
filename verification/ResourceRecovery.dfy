/** Whatever a lossy network has done to a Resource transfer, it can still be completed: from every reachable state
    in which the receiver can retry, some continuation delivers everything. */
module ResourceRecovery {
  import opened Prelude
  import opened ResourceReceiver
  import opened ResourceSender
  import opened ResourceTransfer
  import opened ResourceProgress

  /** Both sides are still at it. */
  ghost predicate Live(s: System) {
    s.listening && s.rcv.status.Transferring? && !s.snd.status.Cancelled?
  }

  /** Missing parts and missing hash entries. */
  function Left(s: System): int {
    (|s.rcv.parts| - 1 - s.rcv.completed) + (|s.rcv.parts| - s.rcv.height)
  }

  /** Request e asks first for the first missing part, or for nothing but its page. */
  ghost predicate AsksFirst(r: State, e: UpPacket) {
    && e.t == r.height && e.c == r.completed
    && if r.completed + 1 < r.height then e.meant != [] && e.meant[0] == r.completed + 1
       else e.meant == [] && e.req.exhausted
  }

  /** Packet d answers it. */
  ghost predicate BringsFirst(r: State, d: DownPacket) {
    if r.completed + 1 < r.height then d.PartPacket? && d.index == r.completed + 1
    else d.PagePacket? && d.t == r.height
  }

  // ---- one round ----

  lemma FirstOfRequest(cfg: Config, r: State)
    requires ReceiverOk(cfg, r) && r.completed + 1 < |r.parts|
    ensures if r.completed + 1 < r.height then RequestIndices(r) != [] && RequestIndices(r)[0] == r.completed + 1
            else RequestIndices(r) == [] && RequestExhausted(r)
  {
    assert r.completed >= 0 ==> r.parts[r.completed].Some?;
    if r.completed + 1 < r.height {
      assert r.hashmap[r.completed + 1].Some?;
      MissingFirst(r.parts, r.completed + 1, RequestStop(r));
    } else {
      assert r.hashmap[r.completed + 1].None?;
    }
  }

  lemma AskFirst(cfg: Config, r: State, id: nat)
    requires ReceiverOk(cfg, r) && !r.status.Failed? && !r.waiting && r.completed + 1 < |r.parts|
    ensures var (r', o) := RequestNext(r);
            && o.Ask? && r' == r.(outstanding := r'.outstanding, waiting := r'.waiting, awaitingResponse := r'.awaitingResponse)
            && AsksFirst(r', UpPacket(id, o.req, RequestIndices(r'), r'.completed, r'.height))
  {
    RequestSays(cfg, r);
    FirstOfRequest(cfg, r);
    SameRequest(r, RequestNext(r).0);
  }

  lemma RetryOk(cfg: Config, r: State)
    requires ReceiverOk(cfg, r) && r.retries > 0
    ensures ReceiverOk(cfg, Retrying(r)) && !Retrying(r).waiting
    ensures var q := Retrying(r); q.status == r.status && q.parts == r.parts && q.height == r.height && q.completed == r.completed
  {
    RetryingKeeps(r);
  }

  /** With nothing in flight, a timeout asks again. */
  lemma TimeoutAsks(cfg: Config, s: System)
    requires Sane(cfg, s) && ReceiverOk(cfg, s.rcv) && Live(s) && s.up == [] && s.down == []
    requires Numbered(s.up, s.seen, s.nextId) && s.rcv.retries > 0 && s.rcv.completed + 1 < |s.rcv.parts|
    ensures var t := Step(cfg, s, ReceiverTimeout);
            && Live(t) && |t.up| == 1 && t.down == [] && t.up[0].id !in t.seen
            && AsksFirst(t.rcv, t.up[0]) && Left(t) == Left(s) && |t.rcv.parts| == |s.rcv.parts|
  {
    RetryOk(cfg, s.rcv);
    var q := Retrying(s.rcv);
    AskFirst(cfg, q, s.nextId);
    TimeoutKeeps(s.rcv);
    var n := RequestNext(q);
    assert Step(cfg, s, ReceiverTimeout) == Emit(s, n.0, n.1);
    EmitFields(s, n.0, n.1);
    AskFields(s, n.0, n.1.req);
  }

  lemma ServeBrings(cfg: Config, s: System)
    requires ValidConfig(cfg) && Inv(cfg, s) && Live(s) && |s.up| == 1 && s.down == [] && s.up[0].id !in s.seen
    requires AsksFirst(s.rcv, s.up[0])
    ensures var t := Step(cfg, s, DeliverUp);
            Live(t) && t.rcv == s.rcv && t.down != [] && BringsFirst(t.rcv, t.down[0])
  {
    var e := s.up[0];
    assert UpOk(cfg, s.asked, s.rcv.height, s.rcv.completed, e);
    ServedAsMeant(cfg, s, e);
    ServeKeeps(s.snd, e.req);
    ServedLive(s.snd, e.req);
    var n := Serve(s.snd, e.req);
    ReplyBrings(cfg, s.rcv, e, n.1);
    var t := Step(cfg, s, DeliverUp);
    assert t.snd == n.0 && t.rcv == s.rcv && t.down == [] + Reply(cfg, n.1, e);
  }

  lemma ServedLive(snd: Sender, req: Request)
    requires Consistent(snd) && !snd.status.Cancelled? && !Serve(snd, req).1.sequencingError
    ensures !Serve(snd, req).0.status.Cancelled?
  {
  }

  lemma ReplyBrings(cfg: Config, r: State, e: UpPacket, resp: Response)
    requires AsksFirst(r, e) && resp.parts == e.meant && (resp.page.Some? <==> e.req.exhausted)
    requires forall k :: 0 <= k < |resp.parts| ==> 0 <= resp.parts[k] < |cfg.parts|
    ensures Reply(cfg, resp, e) != [] && BringsFirst(r, Reply(cfg, resp, e)[0])
  {
  }

  lemma PartAdvances(cfg: Config, r: State, d: DownPacket, obs: Observation)
    requires ValidConfig(cfg) && ReceiverOk(cfg, r) && r.status.Transferring? && r.completed + 1 < r.height
    requires d.PartPacket? && d.index == r.completed + 1 && DownOk(cfg, r.height, r.completed, d)
    ensures var r' := ReceivePart(r, d.data, cfg.mapHash(d.data), obs).0;
            && r'.status.Transferring? && r'.retries == MAX_RETRIES && |r'.parts| == |r.parts|
            && r'.completed > r.completed && r'.height == r.height
  {
    var ph := cfg.mapHash(d.data);
    var r0 := NoteResponse(r, obs);
    assert r0.hashmap[d.index] == Some(ph);
    FirstMissingAdvances(r0, d.data, ph);
    FilledKeeps(r0, d.data, ph);
    AfterFillRetries(Filled(r0, d.data, ph), obs);
  }

  lemma AfterFillRetries(r: State, obs: Observation)
    requires WellFormed(r) && r.status.Transferring?
    ensures var r' := AfterFill(r, obs).0;
            && r'.status.Transferring? && r'.retries == r.retries && r'.height == r.height
            && r'.completed == r.completed && r'.parts == r.parts
  {
    AfterFillKeeps(r, obs);
    if !(r.received == |r.parts| && !r.assemblyLock) && r.outstanding == 0 {
      KnownSize(r.hashmap);
      RequestNextKeeps(EndRound(r, obs));
    }
  }

  lemma PageAdvances(cfg: Config, r: State, d: DownPacket)
    requires ReceiverOk(cfg, r) && r.status.Transferring?
    requires d.PagePacket? && d.t == r.height && DownOk(cfg, r.height, r.completed, d)
    ensures var r' := HashmapUpdate(r.(retries := MAX_RETRIES), d.page.segment, d.page.hashes).0;
            && r'.status.Transferring? && r'.retries == MAX_RETRIES && |r'.parts| == |r.parts|
            && r'.completed == r.completed && r'.height > r.height
  {
    var r0 := r.(retries := MAX_RETRIES);
    PageWritten(cfg, r0, d);
    PageExtends(cfg, r0, d.page, d.t);
    var hm := Put(r0.hashmap, d.t, d.page.hashes);
    RequestNextKeeps(r0.(status := Transferring, hashmap := hm, height := |KnownSet(hm)|, waiting := false));
  }

  /** What was asked for first arrives: less is left, and all retries are there again. */
  lemma ArrivalAdvances(cfg: Config, s: System, obs: Observation)
    requires ValidConfig(cfg) && Sane(cfg, s) && ReceiverOk(cfg, s.rcv) && Live(s)
    requires s.down != [] && BringsFirst(s.rcv, s.down[0]) && DownOk(cfg, s.rcv.height, s.rcv.completed, s.down[0])
    ensures var t := Step(cfg, s, DeliverDown(obs));
            && Live(t) && Left(t) < Left(s) && t.rcv.retries == MAX_RETRIES && |t.rcv.parts| == |s.rcv.parts|
  {
    var d := s.down[0];
    var s1 := s.(down := s.down[1..]);
    if d.PartPacket? {
      var ph := cfg.mapHash(d.data);
      ReceivePartKeeps(s.rcv, d.data, ph, obs);
      PartAdvances(cfg, s.rcv, d, obs);
      var (r, o, start) := ReceivePart(s.rcv, d.data, ph, obs);
      EmitFields(Started(s1, start), r, o);
    } else {
      var r0 := s.rcv.(retries := MAX_RETRIES);
      HashmapUpdateKeeps(r0, d.page.segment, d.page.hashes);
      PageAdvances(cfg, s.rcv, d);
      var (r, o) := HashmapUpdate(r0, d.page.segment, d.page.hashes);
      EmitFields(s1, r, o);
    }
  }

  // ---- rounds put together ----

  lemma LoseUp(cfg: Config, previousWindow: Option<nat>, events: seq<Event>) returns (longer: seq<Event>)
    requires ValidConfig(cfg) && InheritedWindow(previousWindow)
    ensures events <= longer && Run(cfg, previousWindow, longer) == Run(cfg, previousWindow, events).(up := [])
    decreases |Run(cfg, previousWindow, events).up|
  {
    longer := events;
    if Run(cfg, previousWindow, events).up != [] {
      RunSnoc(cfg, previousWindow, events, DropUp(0));
      longer := LoseUp(cfg, previousWindow, events + [DropUp(0)]);
    }
  }

  lemma LoseDown(cfg: Config, previousWindow: Option<nat>, events: seq<Event>) returns (longer: seq<Event>)
    requires ValidConfig(cfg) && InheritedWindow(previousWindow)
    ensures events <= longer && Run(cfg, previousWindow, longer) == Run(cfg, previousWindow, events).(down := [])
    decreases |Run(cfg, previousWindow, events).down|
  {
    longer := events;
    if Run(cfg, previousWindow, events).down != [] {
      RunSnoc(cfg, previousWindow, events, DropDown(0));
      longer := LoseDown(cfg, previousWindow, events + [DropDown(0)]);
    }
  }

  /** Losing everything in flight changes nothing else. */
  lemma LoseAll(cfg: Config, previousWindow: Option<nat>, events: seq<Event>) returns (longer: seq<Event>)
    requires ValidConfig(cfg) && InheritedWindow(previousWindow)
    ensures events <= longer && Run(cfg, previousWindow, longer) == Run(cfg, previousWindow, events).(up := [], down := [])
  {
    longer := LoseUp(cfg, previousWindow, events);
    longer := LoseDown(cfg, previousWindow, longer);
  }

  /** One round: lose everything, time out, serve the new request, deliver the first packet of the reply. */
  lemma Round(cfg: Config, previousWindow: Option<nat>, events: seq<Event>, obs: Observation) returns (longer: seq<Event>)
    requires ValidConfig(cfg) && InheritedWindow(previousWindow)
    requires var s := Run(cfg, previousWindow, events); Live(s) && s.rcv.retries > 0 && s.rcv.completed + 1 < |s.rcv.parts|
    ensures events <= longer
    ensures var s, t := Run(cfg, previousWindow, events), Run(cfg, previousWindow, longer);
            Live(t) && t.rcv.retries > 0 && Left(t) < Left(s)
  {
    var e0 := LoseAll(cfg, previousWindow, events);
    RunInv(cfg, previousWindow, e0);
    RunProgress(cfg, previousWindow, e0);
    TimeoutAsks(cfg, Run(cfg, previousWindow, e0));
    RunSnoc(cfg, previousWindow, e0, ReceiverTimeout);
    var e1 := e0 + [ReceiverTimeout];
    RunInv(cfg, previousWindow, e1);
    ServeBrings(cfg, Run(cfg, previousWindow, e1));
    RunSnoc(cfg, previousWindow, e1, DeliverUp);
    var e2 := e1 + [DeliverUp];
    RunInv(cfg, previousWindow, e2);
    ArrivalAdvances(cfg, Run(cfg, previousWindow, e2), obs);
    RunSnoc(cfg, previousWindow, e2, DeliverDown(obs));
    longer := e2 + [DeliverDown(obs)];
  }

  lemma LeftBounds(cfg: Config, previousWindow: Option<nat>, events: seq<Event>)
    requires ValidConfig(cfg) && InheritedWindow(previousWindow)
    ensures Left(Run(cfg, previousWindow, events)) >= 0
  {
    RunInv(cfg, previousWindow, events);
  }

  /** From every reachable state in which both sides are still at it and the receiver has a retry left, or nothing is
      missing, some continuation ends with the sender's parts assembled. */
  lemma RecoverableInEveryRun(cfg: Config, previousWindow: Option<nat>, events: seq<Event>, obs: Observation) returns (longer: seq<Event>)
    requires ValidConfig(cfg) && InheritedWindow(previousWindow)
    requires var s := Run(cfg, previousWindow, events);
             Live(s) && (s.rcv.retries > 0 || s.rcv.completed + 1 == |s.rcv.parts|)
    ensures events <= longer && Run(cfg, previousWindow, longer).assembled == Some(cfg.parts)
  {
    longer := events;
    while Run(cfg, previousWindow, longer).rcv.completed + 1 < |Run(cfg, previousWindow, longer).rcv.parts|
      invariant events <= longer && Live(Run(cfg, previousWindow, longer))
      invariant var s := Run(cfg, previousWindow, longer); s.rcv.retries > 0 || s.rcv.completed + 1 == |s.rcv.parts|
      decreases Left(Run(cfg, previousWindow, longer))
    {
      LeftBounds(cfg, previousWindow, longer);
      longer := Round(cfg, previousWindow, longer, obs);
      LeftBounds(cfg, previousWindow, longer);
    }
    AssembleEnds(cfg, previousWindow, longer);
    longer := longer + [Assemble];
  }

  lemma LockedAtEnd(cfg: Config, previousWindow: Option<nat>, events: seq<Event>)
    requires ValidConfig(cfg) && InheritedWindow(previousWindow)
    requires var s := Run(cfg, previousWindow, events); s.rcv.completed + 1 >= |s.rcv.parts|
    ensures Run(cfg, previousWindow, events).rcv.assemblyLock
  {
    RunProgress(cfg, previousWindow, events);
  }

  lemma AssembleStep(cfg: Config, s: System)
    requires ValidConfig(cfg) && Inv(cfg, s) && s.rcv.assemblyLock && s.listening && !s.rcv.status.Failed?
    ensures Step(cfg, s, Assemble).assembled == Some(cfg.parts)
  {
    StepInv(cfg, s, Assemble);
  }

  lemma AssembleEnds(cfg: Config, previousWindow: Option<nat>, events: seq<Event>)
    requires ValidConfig(cfg) && InheritedWindow(previousWindow)
    requires var s := Run(cfg, previousWindow, events); Live(s) && s.rcv.completed + 1 >= |s.rcv.parts|
    ensures Run(cfg, previousWindow, events + [Assemble]).assembled == Some(cfg.parts)
  {
    LockedAtEnd(cfg, previousWindow, events);
    RunInv(cfg, previousWindow, events);
    AssembleStep(cfg, Run(cfg, previousWindow, events));
    RunSnoc(cfg, previousWindow, events, Assemble);
  }
}
