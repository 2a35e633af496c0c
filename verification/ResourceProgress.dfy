/** What a Resource transfer is after in every run, however much is lost, repeated or late: the last request
    sent is always after the first missing part, and assembly is started once. */
module ResourceProgress {
  import opened Prelude
  import opened ResourceReceiver
  import opened ResourceSender
  import opened ResourceTransfer

  // ---- the invariant ----

  /** One past the slots a request speaks for: up to its last part, or to the end of the table when it asks for a page. */
  function CoverEnd(e: UpPacket): int {
    if e.req.exhausted then e.t else if e.meant == [] then 0 else e.meant[|e.meant| - 1] + 1
  }

  /** The slots of a request that no part has filled yet. */
  function StillEmpty(parts: seq<Option<Bytes>>, meant: seq<int>): set<int> {
    set i | i in meant && 0 <= i < |parts| && parts[i].None?
  }

  /** Every empty slot the request speaks for is one of its own. */
  ghost predicate Covers(parts: seq<Option<Bytes>>, e: UpPacket) {
    forall i :: 0 <= i < |parts| && i < CoverEnd(e) && parts[i].None? ==> i in e.meant
  }

  /** The receiver is still after what e asked for: at least `least` of its parts are counted as outstanding, no more
      than are missing, or it waits for the page at the end of its table. */
  ghost predicate After(r: State, e: UpPacket, least: nat) {
    && Ascending(e.meant) && Covers(r.parts, e) && e.req.exhausted == r.waiting
    && (r.waiting ==> e.t == r.height)
    && (!r.waiting ==> least <= r.outstanding <= |StillEmpty(r.parts, e.meant)|)
  }

  ghost predicate Pursues(r: State, last: Option<UpPacket>) {
    !r.status.Failed? && r.completed + 1 < |r.parts| ==> last.Some? && After(r, last.value, 1)
  }

  /** Assembly has been started once, exactly when its lock is set, which is when no slot is empty. */
  ghost predicate StartedOnce(r: State, starts: nat) {
    && starts == (if r.assemblyLock then 1 else 0)
    && (r.completed + 1 == |r.parts| ==> r.assemblyLock)
  }

  /** Requests carry numbers the receiver has used. */
  ghost predicate Numbered(up: seq<UpPacket>, seen: set<nat>, nextId: nat) {
    && (forall id :: id in seen ==> id < nextId)
    && (forall k :: 0 <= k < |up| ==> up[k].id < nextId)
  }

  ghost predicate Progress(s: System) {
    Pursues(s.rcv, s.last) && StartedOnce(s.rcv, s.starts) && Numbered(s.up, s.seen, s.nextId)
  }

  // ---- a request goes out ----

  lemma {:induction false} MissingComplete(parts: seq<Option<Bytes>>, lo: nat, hi: nat, i: nat)
    requires lo <= i < hi <= |parts| && parts[i].None?
    ensures i in Missing(parts, lo, hi)
  {
    if i < hi - 1 {
      MissingComplete(parts, lo, hi - 1, i);
    }
  }

  lemma {:induction false} EmptyCount(parts: seq<Option<Bytes>>, m: seq<int>)
    requires Ascending(m) && forall k :: 0 <= k < |m| ==> 0 <= m[k] < |parts| && parts[m[k]].None?
    ensures |StillEmpty(parts, m)| == |m|
  {
    if m != [] {
      var r, last := m[..|m| - 1], m[|m| - 1];
      EmptyCount(parts, r);
      assert m == r + [last];
      assert last !in r;
      assert StillEmpty(parts, m) == StillEmpty(parts, r) + {last};
    }
  }

  /** The scan for a request stops at the end of the table, or at the end of the window. */
  lemma StopsAtHeight(cfg: Config, r: State)
    requires ReceiverOk(cfg, r) && RequestExhausted(r)
    ensures RequestStop(r) == r.height
  {
    var k := RequestStop(r);
    assert r.hashmap[k].None?;
    assert k > r.completed + 1 ==> r.parts[k - 1].Some? || r.hashmap[k - 1].Some?;
    assert r.completed >= 0 ==> r.parts[r.completed].Some?;
  }

  lemma AskCovers(cfg: Config, r: State, e: UpPacket)
    requires ReceiverOk(cfg, r) && e.meant == RequestIndices(r) && e.t == r.height && e.req.exhausted == RequestExhausted(r)
    ensures Covers(r.parts, e)
  {
    if RequestExhausted(r) {
      StopsAtHeight(cfg, r);
    }
    forall i | 0 <= i < |r.parts| && i < CoverEnd(e) && r.parts[i].None?
      ensures i in e.meant
    {
      assert i > r.completed && i < RequestStop(r);
      MissingComplete(r.parts, r.completed + 1, RequestStop(r), i);
    }
  }

  lemma AskIsAfter(cfg: Config, r: State, id: nat)
    requires ReceiverOk(cfg, r) && !r.status.Failed? && !r.waiting && r.completed + 1 < |r.parts|
    ensures var (r', o) := RequestNext(r);
            o.Ask? && After(r', UpPacket(id, o.req, RequestIndices(r'), r'.completed, r'.height), 1)
  {
    RequestSays(cfg, r);
    MeantShape(cfg, r);
    SameRequest(r, RequestNext(r).0);
    var e := UpPacket(id, AskFor(r), RequestIndices(r), r.completed, r.height);
    AskCovers(cfg, r, e);
    EmptyCount(r.parts, e.meant);
    if !RequestExhausted(r) {
      MissingFirst(r.parts, r.completed + 1, RequestStop(r));
    }
  }

  /** Whenever request_next is called on a receiver that waits for no page, the request that goes out is after the
      first missing part. */
  lemma NextPursues(cfg: Config, s: System, r: State)
    requires ReceiverOk(cfg, r) && !r.waiting
    ensures var (r', o) := RequestNext(r);
            && r'.completed == r.completed && r'.assemblyLock == r.assemblyLock && r'.parts == r.parts
            && |r'.hashmap| == |r'.parts| && -1 <= r'.completed < |r'.parts|
            && Pursues(r', Emit(s, r', o).last)
  {
    RequestNextKeeps(r);
    if !r.status.Failed? && r.completed + 1 < |r.parts| {
      AskIsAfter(cfg, r, s.nextId);
    }
  }

  // ---- a part arrives ----

  /** A part in flight fills its own slot or none. */
  lemma OneSlot(cfg: Config, r: State, d: DownPacket)
    requires ValidConfig(cfg) && ReceiverOk(cfg, r)
    requires d.PartPacket? && DownOk(cfg, r.height, r.completed, d)
    ensures var p := Filled(r, d.data, cfg.mapHash(d.data)).parts;
            p == r.parts || (r.parts[d.index].None? && p == r.parts[d.index := Some(d.data)])
  {
    var p := Filled(r, d.data, cfg.mapHash(d.data)).parts;
    forall i | 0 <= i < |r.parts| && i != d.index
      ensures p[i] == r.parts[i]
    {
      if p[i] != r.parts[i] {
        SlotIsMeant(cfg, r, d, i);
      }
    }
    assert p[d.index] == r.parts[d.index] ==> p == r.parts;
    assert p[d.index] != r.parts[d.index] ==> p == r.parts[d.index := Some(d.data)];
  }

  lemma FillCounts(parts: seq<Option<Bytes>>, i: nat, data: Bytes, e: UpPacket)
    requires i < |parts| && parts[i].None?
    ensures var p := parts[i := Some(data)];
            && |FilledSet(p)| == |FilledSet(parts)| + 1
            && |StillEmpty(p, e.meant)| >= |StillEmpty(parts, e.meant)| - 1
            && (Covers(parts, e) ==> Covers(p, e))
  {
    var p := parts[i := Some(data)];
    assert FilledSet(p) == FilledSet(parts) + {i};
    assert StillEmpty(p, e.meant) == StillEmpty(parts, e.meant) - {i};
  }

  lemma FillIsAfter(cfg: Config, r: State, d: DownPacket, e: UpPacket)
    requires ValidConfig(cfg) && ReceiverOk(cfg, r) && After(r, e, 1)
    requires d.PartPacket? && DownOk(cfg, r.height, r.completed, d)
    ensures After(Filled(r, d.data, cfg.mapHash(d.data)), e, 0)
  {
    OneSlot(cfg, r, d);
    if r.parts[d.index].None? {
      FillCounts(r.parts, d.index, d.data, e);
    }
  }

  /** The end of receive_part: the round goes on, or the next request goes out. */
  lemma ConcludePursues(cfg: Config, s: System, r: State, obs: Observation)
    requires ReceiverOk(cfg, r)
    requires !r.status.Failed? && r.completed + 1 < |r.parts| ==> s.last.Some? && After(r, s.last.value, 0)
    ensures var (r', o, start) := AfterFill(r, obs);
            |r'.hashmap| == |r'.parts| && -1 <= r'.completed < |r'.parts| && Pursues(r', Emit(s, r', o).last)
  {
    AfterFillKeeps(r, obs);
    AllFilled(r.parts);
    if r.received != |r.parts| && r.outstanding == 0 {
      var r2 := EndRound(r, obs);
      WindowsKeep(r, r2);
      if !r.waiting {
        NextPursues(cfg, s, r2);
      }
    }
  }

  lemma PartPursues(cfg: Config, s: System, d: DownPacket, obs: Observation)
    requires ValidConfig(cfg) && ReceiverOk(cfg, s.rcv) && Pursues(s.rcv, s.last)
    requires d.PartPacket? && DownOk(cfg, s.rcv.height, s.rcv.completed, d)
    ensures var (r, o, start) := ReceivePart(s.rcv, d.data, cfg.mapHash(d.data), obs);
            |r.hashmap| == |r.parts| && -1 <= r.completed < |r.parts| && Pursues(r, Emit(s, r, o).last)
  {
    var ph := cfg.mapHash(d.data);
    var r0 := NoteResponse(s.rcv, obs);
    if !s.rcv.status.Failed? {
      assert ReceiverOk(cfg, r0) && Pursues(r0, s.last);
      FilledOk(cfg, r0, d);
      FilledKeeps(r0, d.data, ph);
      if r0.completed + 1 < |r0.parts| {
        FillIsAfter(cfg, r0, d, s.last.value);
      }
      ConcludePursues(cfg, s, Filled(r0, d.data, ph), obs);
    }
  }

  lemma PartStarts(r: State, data: Bytes, ph: MapHash, obs: Observation, starts: nat)
    requires WellFormed(r) && StartedOnce(r, starts)
    ensures var (r', o, start) := ReceivePart(r, data, ph, obs);
            StartedOnce(r', if start then starts + 1 else starts)
  {
    if !r.status.Failed? {
      var r0 := NoteResponse(r, obs);
      FilledKeeps(r0, data, ph);
      var r1 := Filled(r0, data, ph);
      AllFilled(r1.parts);
      AfterFillKeeps(r1, obs);
    }
  }

  // ---- every step ----

  lemma EmitProgress(s: System, r: State, o: Output)
    requires |r.hashmap| == |r.parts| && -1 <= r.completed < |r.parts|
    requires Pursues(r, Emit(s, r, o).last) && StartedOnce(r, s.starts) && Numbered(s.up, s.seen, s.nextId)
    ensures Progress(Emit(s, r, o))
  {
  }

  /** request_next on a receiver that waits for no page. */
  lemma NextProgress(cfg: Config, s: System, r: State)
    requires ReceiverOk(cfg, r) && !r.waiting && StartedOnce(r, s.starts) && Numbered(s.up, s.seen, s.nextId)
    ensures var (r', o) := RequestNext(r);
            |r'.hashmap| == |r'.parts| && -1 <= r'.completed < |r'.parts| && Progress(Emit(s, r', o))
  {
    NextPursues(cfg, s, r);
    var (r', o) := RequestNext(r);
    EmitProgress(s, r', o);
  }

  lemma PartProgress(cfg: Config, s: System, d: DownPacket, obs: Observation)
    requires ValidConfig(cfg) && ReceiverOk(cfg, s.rcv) && Progress(s)
    requires d.PartPacket? && DownOk(cfg, s.rcv.height, s.rcv.completed, d)
    ensures var (r, o, start) := ReceivePart(s.rcv, d.data, cfg.mapHash(d.data), obs);
            && |r.hashmap| == |r.parts| && -1 <= r.completed < |r.parts|
            && Progress(Emit(Started(s, start), r, o))
  {
    var (r, o, start) := ReceivePart(s.rcv, d.data, cfg.mapHash(d.data), obs);
    PartPursues(cfg, Started(s, start), d, obs);
    PartStarts(s.rcv, d.data, cfg.mapHash(d.data), obs, s.starts);
    EmitProgress(Started(s, start), r, o);
  }

  /** The receiver once a page of the sender's is in its table. */
  lemma PageWritten(cfg: Config, r: State, d: DownPacket)
    requires ReceiverOk(cfg, r) && !r.status.Failed? && d.PagePacket? && DownOk(cfg, r.height, r.completed, d)
    ensures var hm := Put(r.hashmap, d.t, d.page.hashes);
            var r1 := r.(status := Transferring, hashmap := hm, height := |KnownSet(hm)|, waiting := false);
            ReceiverOk(cfg, r1) && HashmapUpdate(r, d.page.segment, d.page.hashes) == RequestNext(r1)
  {
    PageExtends(cfg, r, d.page, d.t);
  }

  lemma PageProgress(cfg: Config, s: System, d: DownPacket)
    requires ReceiverOk(cfg, s.rcv) && Progress(s)
    requires d.PagePacket? && DownOk(cfg, s.rcv.height, s.rcv.completed, d)
    ensures var r0 := if s.rcv.status.Failed? then s.rcv else s.rcv.(retries := MAX_RETRIES);
            var (r, o) := HashmapUpdate(r0, d.page.segment, d.page.hashes);
            |r.hashmap| == |r.parts| && -1 <= r.completed < |r.parts| && Progress(Emit(s, r, o))
  {
    if !s.rcv.status.Failed? {
      var r0 := s.rcv.(retries := MAX_RETRIES);
      PageWritten(cfg, r0, d);
      var hm := Put(r0.hashmap, d.t, d.page.hashes);
      NextProgress(cfg, s, r0.(status := Transferring, hashmap := hm, height := |KnownSet(hm)|, waiting := false));
    }
  }

  lemma AcceptProgress(cfg: Config, s: System, obs: Observation)
    requires ValidConfig(cfg) && Inv(cfg, s) && Progress(s)
    ensures Progress(AcceptHead(cfg, s, obs))
  {
    if s.down != [] && s.listening {
      var d := s.down[0];
      var s1 := s.(down := s.down[1..]);
      assert DownOk(cfg, s.rcv.height, s.rcv.completed, d);
      assert Progress(s1);
      match d {
        case PartPacket(_, _, _, _) => PartProgress(cfg, s1, d, obs);
        case PagePacket(_, _) => PageProgress(cfg, s1, d);
      }
    }
  }

  lemma TimeoutProgress(cfg: Config, s: System)
    requires ReceiverOk(cfg, s.rcv) && Progress(s)
    ensures var (r, o) := Timeout(s.rcv);
            |r.hashmap| == |r.parts| && -1 <= r.completed < |r.parts| && Progress(Emit(s, r, o))
  {
    if s.rcv.status.Transferring? && s.rcv.retries > 0 {
      RetryingKeeps(s.rcv);
      NextProgress(cfg, s, Retrying(s.rcv));
    }
  }

  lemma ServeFields(cfg: Config, s: System)
    requires Sane(cfg, s) && s.up != []
    ensures var t := ServeHead(cfg, s);
            && t.rcv == s.rcv && t.last == s.last && t.starts == s.starts && t.nextId == s.nextId
            && t.up == s.up[1..] && t.seen == s.seen + {s.up[0].id}
  {
  }

  lemma ServeProgress(cfg: Config, s: System)
    requires Sane(cfg, s) && Progress(s)
    ensures Progress(ServeHead(cfg, s))
  {
    if s.up != [] {
      ServeFields(cfg, s);
      assert Numbered(s.up[1..], s.seen + {s.up[0].id}, s.nextId);
    }
  }

  lemma NetworkProgress(s: System, k: nat)
    requires Progress(s)
    ensures Progress(s.(up := RemoveAt(s.up, k))) && Progress(s.(up := RepeatAt(s.up, k)))
  {
    if k < |s.up| {
      RepeatIndex(s.up, k);
    }
  }

  lemma StepProgress(cfg: Config, s: System, e: Event)
    requires ValidConfig(cfg) && Inv(cfg, s) && Progress(s)
    ensures Progress(Step(cfg, s, e))
  {
    match e {
      case DeliverUp => ServeProgress(cfg, s);
      case DropUp(k) => NetworkProgress(s, k);
      case DuplicateUp(k) => NetworkProgress(s, k);
      case DeliverDown(obs) => AcceptProgress(cfg, s, obs);
      case ReceiverTimeout => TimeoutProgress(cfg, s);
      case _ =>
    }
  }

  lemma StartProgress(cfg: Config, previousWindow: Option<nat>)
    requires ValidConfig(cfg) && InheritedWindow(previousWindow)
    ensures Progress(Start(cfg, previousWindow))
  {
    OpenedOk(cfg, previousWindow);
    var s := Advertise(cfg, previousWindow);
    assert StartedOnce(Opened(cfg, previousWindow), s.starts) && Numbered(s.up, s.seen, s.nextId);
    NextProgress(cfg, s, Opened(cfg, previousWindow));
  }

  lemma {:induction false} RunProgress(cfg: Config, previousWindow: Option<nat>, events: seq<Event>)
    requires ValidConfig(cfg) && InheritedWindow(previousWindow)
    ensures Progress(Run(cfg, previousWindow, events))
  {
    if events == [] {
      StartProgress(cfg, previousWindow);
    } else {
      var s := Run(cfg, previousWindow, events[..|events| - 1]);
      RunInv(cfg, previousWindow, events[..|events| - 1]);
      RunProgress(cfg, previousWindow, events[..|events| - 1]);
      StepProgress(cfg, s, events[|events| - 1]);
    }
  }

  // ---- what holds in every run ----

  lemma PursuedIs(cfg: Config, r: State, e: UpPacket)
    requires ReceiverOk(cfg, r) && r.completed + 1 < |r.parts| && After(r, e, 1)
    ensures r.completed + 1 in e.meant || (e.req.exhausted && e.t == r.completed + 1 && r.waiting)
  {
    var i := r.completed + 1;
    assert r.parts[i].None? && (r.completed >= 0 ==> r.parts[r.completed].Some?);
    if !r.waiting {
      var x :| x in StillEmpty(r.parts, e.meant);
      var k :| 0 <= k < |e.meant| && e.meant[k] == x;
      assert x <= e.meant[|e.meant| - 1] && i <= x;
    }
  }

  /** The last request asks for the first missing part; or that part's hash is unknown, the request asks for its page,
      and the receiver waits. */
  ghost predicate AsksForFirst(r: State, last: Option<UpPacket>) {
    && last.Some?
    && (r.completed + 1 in last.value.meant
        || (last.value.req.exhausted && last.value.t == r.completed + 1 && r.waiting))
  }

  lemma PursuitAsks(cfg: Config, r: State, last: Option<UpPacket>)
    requires ReceiverOk(cfg, r) && Pursues(r, last) && !r.status.Failed? && r.completed + 1 < |cfg.parts|
    ensures AsksForFirst(r, last)
  {
    PursuedIs(cfg, r, last.value);
  }

  /** In every run, as long as the receiver has not failed and a part is missing, the last request it sent asks for
      the first missing part, or for the page its hash is on. */
  lemma FirstMissingPursuedInEveryRun(cfg: Config, previousWindow: Option<nat>, events: seq<Event>)
    requires ValidConfig(cfg) && InheritedWindow(previousWindow)
    ensures var s := Run(cfg, previousWindow, events);
            !s.rcv.status.Failed? && s.rcv.completed + 1 < |cfg.parts| ==>
              AsksForFirst(s.rcv, s.last)
  {
    RunInv(cfg, previousWindow, events);
    RunProgress(cfg, previousWindow, events);
    var s := Run(cfg, previousWindow, events);
    if !s.rcv.status.Failed? && s.rcv.completed + 1 < |cfg.parts| {
      PursuitAsks(cfg, s.rcv, s.last);
    }
  }

  /** In every run assembly is started at most once, and it has been started exactly when no slot is empty. */
  lemma AssemblyOnceInEveryRun(cfg: Config, previousWindow: Option<nat>, events: seq<Event>)
    requires ValidConfig(cfg) && InheritedWindow(previousWindow)
    ensures var s := Run(cfg, previousWindow, events);
            && s.starts <= 1 && (s.starts == 1 <==> s.rcv.assemblyLock)
            && (s.rcv.assemblyLock <==> forall i :: 0 <= i < |s.rcv.parts| ==> s.rcv.parts[i].Some?)
  {
    RunInv(cfg, previousWindow, events);
    RunProgress(cfg, previousWindow, events);
    var s := Run(cfg, previousWindow, events);
    assert s.rcv.completed + 1 < |s.rcv.parts| ==> s.rcv.parts[s.rcv.completed + 1].None?;
  }
}
