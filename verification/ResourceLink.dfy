/** The resources of one link. A link hands every part that arrives to every resource coming in on it, each of which
    looks for an open slot with the part's map hash; and a resource begins with the window of the one that concluded
    last. */
module ResourceLink {
  import opened Prelude
  import opened ResourceReceiver
  import opened ResourceSender
  import opened ResourceTransfer

  /** A resource coming in on a link; `clean` is history: no part of another resource has fitted an open slot. */
  datatype Incoming = Incoming(cfg: Config, sys: System, clean: bool)

  datatype Link = Link(lastWindow: Option<nat>, incoming: seq<Incoming>)

  /** A resource begins, takes a step of its transfer, or concludes; `seen` is what the others observe of a part. */
  datatype LinkEvent = Begin(cfg: Config) | Advance(k: nat, event: Event, seen: nat -> Observation) | Conclude(k: nat)

  // ---- what holds whatever parts arrive ----

  /** Known hashes are the sender's, and a filled slot holds a part with the map hash of the sender's. */
  ghost predicate TablesHonest(cfg: Config, parts: seq<Option<Bytes>>, hashmap: seq<Option<MapHash>>) {
    && |parts| == |hashmap| == |cfg.parts|
    && (forall i :: 0 <= i < |parts| && hashmap[i].Some? ==> hashmap[i].value == Hashes(cfg)[i])
    && (forall i :: 0 <= i < |parts| && parts[i].Some? ==> cfg.mapHash(parts[i].value) == Hashes(cfg)[i])
  }

  ghost predicate PagesHonest(cfg: Config, down: seq<DownPacket>) {
    forall k :: 0 <= k < |down| && down[k].PagePacket? ==> down[k].page == PageOf(Hashes(cfg), down[k].page.segment)
  }

  ghost predicate ContentsHonest(cfg: Config, data: seq<Bytes>) {
    |data| == |cfg.parts| && forall i :: 0 <= i < |data| ==> cfg.mapHash(data[i]) == Hashes(cfg)[i]
  }

  ghost predicate Honest(cfg: Config, s: System) {
    && Sane(cfg, s) && TablesHonest(cfg, s.rcv.parts, s.rcv.hashmap) && PagesHonest(cfg, s.down)
    && (s.assembled.Some? ==> ContentsHonest(cfg, s.assembled.value))
  }

  lemma InvHonest(cfg: Config, s: System)
    requires Inv(cfg, s)
    ensures Honest(cfg, s)
  {
  }

  // ---- steps ----

  /** The part fits a slot that is open and asks for its map hash. */
  ghost predicate Fits(r: State, ph: MapHash)
    requires |r.hashmap| == |r.parts|
  {
    var lo := Max(r.completed, 0);
    exists i :: lo <= i < lo + r.window && i < |r.parts| && r.parts[i].None? && r.hashmap[i] == Some(ph)
  }

  /** A part of another resource arrives. */
  ghost function Hear(i: Incoming, data: Bytes, obs: Observation): Incoming
    requires Sane(i.cfg, i.sys)
  {
    if !i.sys.listening then i
    else
      var ph := i.cfg.mapHash(data);
      ReceivePartKeeps(i.sys.rcv, data, ph, obs);
      var (r, o, start) := ReceivePart(i.sys.rcv, data, ph, obs);
      i.(sys := Emit(Started(i.sys, start), r, o), clean := i.clean && !Fits(i.sys.rcv, ph))
  }

  /** The part that a step of a resource takes off the link. */
  function Arriving(s: System, e: Event): Option<Bytes> {
    if e.DeliverDown? && s.down != [] && s.down[0].PartPacket? then Some(s.down[0].data) else None
  }

  ghost predicate IncomingOk(i: Incoming) {
    ValidConfig(i.cfg) && Honest(i.cfg, i.sys) && (i.clean ==> Inv(i.cfg, i.sys))
  }

  ghost predicate LinkOk(l: Link) {
    InheritedWindow(l.lastWindow) && forall k :: 0 <= k < |l.incoming| ==> IncomingOk(l.incoming[k])
  }

  /** Resource j after resource k took a step. */
  ghost function Moved(l: Link, k: nat, e: Event, seen: nat -> Observation, j: nat): Incoming
    requires LinkOk(l) && k < |l.incoming| && j < |l.incoming|
  {
    var i := l.incoming[j];
    assert IncomingOk(i);
    var part := Arriving(l.incoming[k].sys, e);
    if j == k then i.(sys := Step(i.cfg, i.sys, e))
    else if part.Some? then Hear(i, part.value, seen(j))
    else i
  }

  ghost function LinkStep(l: Link, e: LinkEvent): Link
    requires LinkOk(l)
  {
    match e
    case Begin(cfg) =>
      if ValidConfig(cfg) then l.(incoming := l.incoming + [Incoming(cfg, Start(cfg, l.lastWindow), true)]) else l
    case Advance(k, event, seen) =>
      if k >= |l.incoming| then l
      else
        l.(incoming := seq(|l.incoming|, j requires 0 <= j < |l.incoming| => Moved(l, k, event, seen, j)))
    case Conclude(k) =>
      if k >= |l.incoming| then l else Link(Some(l.incoming[k].sys.rcv.window), RemoveAt(l.incoming, k))
  }

  // ---- every step keeps it ----

  lemma StoreHonest(cfg: Config, parts: seq<Option<Bytes>>, hashmap: seq<Option<MapHash>>, lo: nat, hi: nat, data: Bytes)
    requires TablesHonest(cfg, parts, hashmap)
    ensures TablesHonest(cfg, Store(parts, hashmap, lo, hi, cfg.mapHash(data), data), hashmap)
  {
  }

  lemma PutHonest(cfg: Config, parts: seq<Option<Bytes>>, hashmap: seq<Option<MapHash>>, segment: nat)
    requires TablesHonest(cfg, parts, hashmap)
    ensures TablesHonest(cfg, parts, Put(hashmap, segment * HASHMAP_MAX_LEN, PageOf(Hashes(cfg), segment).hashes))
  {
  }

  lemma RequestTables(r: State)
    requires |r.hashmap| == |r.parts| && -1 <= r.completed < |r.parts| && r.height <= |r.parts|
    ensures RequestNext(r).0.parts == r.parts && RequestNext(r).0.hashmap == r.hashmap
  {
  }

  /** What a part does to the tables. */
  lemma PartTables(r: State, data: Bytes, ph: MapHash, obs: Observation)
    requires WellFormed(r)
    ensures var s := ReceivePart(r, data, ph, obs).0; var lo := Max(r.completed, 0);
            && s.hashmap == r.hashmap
            && s.parts == if r.status.Failed? then r.parts else Store(r.parts, r.hashmap, lo, lo + r.window, ph, data)
  {
    var r0 := NoteResponse(r, obs);
    if !r.status.Failed? {
      FilledKeeps(r0, data, ph);
      var r1 := Filled(r0, data, ph);
      if r1.outstanding == 0 && (r1.received != |r1.parts| || r1.assemblyLock) {
        KnownSize(r1.hashmap);
        RequestTables(EndRound(r1, obs));
      }
    }
  }

  lemma EmitHonest(cfg: Config, s: System, r: State, o: Output)
    requires Honest(cfg, s) && WellFormed(r) && TablesHonest(cfg, r.parts, r.hashmap)
    ensures Honest(cfg, Emit(s, r, o))
  {
    var t := Emit(s, r, o);
    assert t.rcv == r && t.snd == s.snd && t.down == s.down && t.assembled == s.assembled;
  }

  lemma PartTablesHonest(cfg: Config, r: State, data: Bytes, obs: Observation)
    requires WellFormed(r) && TablesHonest(cfg, r.parts, r.hashmap)
    ensures var s := ReceivePart(r, data, cfg.mapHash(data), obs).0; TablesHonest(cfg, s.parts, s.hashmap)
  {
    var ph := cfg.mapHash(data);
    PartTables(r, data, ph, obs);
    StoreHonest(cfg, r.parts, r.hashmap, Max(r.completed, 0), Max(r.completed, 0) + r.window, data);
  }

  lemma PartHonest(cfg: Config, s: System, data: Bytes, obs: Observation)
    requires Honest(cfg, s)
    ensures var (r, o, start) := ReceivePart(s.rcv, data, cfg.mapHash(data), obs);
            WellFormed(r) && Honest(cfg, Emit(Started(s, start), r, o))
  {
    var ph := cfg.mapHash(data);
    ReceivePartKeeps(s.rcv, data, ph, obs);
    PartTablesHonest(cfg, s.rcv, data, obs);
    var n := ReceivePart(s.rcv, data, ph, obs);
    EmitHonest(cfg, Started(s, n.2), n.0, n.1);
  }

  lemma PageTables(r: State, segment: nat, hashes: seq<MapHash>)
    requires WellFormed(r)
    ensures var s := HashmapUpdate(r, segment, hashes).0;
            && s.parts == r.parts
            && (s.hashmap == r.hashmap || s.hashmap == Put(r.hashmap, segment * HASHMAP_MAX_LEN, hashes))
  {
    if !r.status.Failed? {
      var hm := Put(r.hashmap, segment * HASHMAP_MAX_LEN, hashes);
      KnownSize(hm);
      RequestTables(r.(status := Transferring, hashmap := hm, height := |KnownSet(hm)|, waiting := false));
    }
  }

  lemma PageHonest(cfg: Config, s: System, page: Page)
    requires Honest(cfg, s) && page == PageOf(Hashes(cfg), page.segment)
    ensures var (r, o) := HashmapUpdate(s.rcv, page.segment, page.hashes);
            WellFormed(r) && Honest(cfg, Emit(s, r, o))
  {
    HashmapUpdateKeeps(s.rcv, page.segment, page.hashes);
    PutHonest(cfg, s.rcv.parts, s.rcv.hashmap, page.segment);
    PageTables(s.rcv, page.segment, page.hashes);
    var n := HashmapUpdate(s.rcv, page.segment, page.hashes);
    EmitHonest(cfg, s, n.0, n.1);
  }

  lemma AcceptHonest(cfg: Config, s: System, obs: Observation)
    requires Honest(cfg, s)
    ensures Honest(cfg, AcceptHead(cfg, s, obs))
  {
    if s.down != [] {
      var s1 := s.(down := s.down[1..]);
      assert Honest(cfg, s1);
      if s.listening {
        match s.down[0] {
          case PartPacket(data, _, _, _) => PartHonest(cfg, s1, data, obs);
          case PagePacket(page, _) =>
            var r0 := if s.rcv.status.Failed? then s.rcv else s.rcv.(retries := MAX_RETRIES);
            PageHonest(cfg, s1.(rcv := r0), page);
        }
      }
    }
  }

  lemma ServedPage(snd: Sender, req: Request)
    requires Consistent(snd)
    ensures var page := Serve(snd, req).1.page; page.Some? ==> page.value == PageOf(snd.hashes, page.value.segment)
  {
  }

  lemma ReplyHonest(cfg: Config, down: seq<DownPacket>, resp: Response, e: UpPacket)
    requires forall k :: 0 <= k < |resp.parts| ==> 0 <= resp.parts[k] < |cfg.parts|
    requires PagesHonest(cfg, down)
    requires resp.page.Some? ==> resp.page.value == PageOf(Hashes(cfg), resp.page.value.segment)
    ensures PagesHonest(cfg, down + Reply(cfg, resp, e))
  {
    var all := down + Reply(cfg, resp, e);
    forall k | 0 <= k < |all| && all[k].PagePacket?
      ensures all[k].page == PageOf(Hashes(cfg), all[k].page.segment)
    {
      assert k < |down| ==> all[k] == down[k];
    }
  }

  lemma ServeHonest(cfg: Config, s: System)
    requires Honest(cfg, s)
    ensures Honest(cfg, ServeHead(cfg, s))
  {
    if s.up != [] && s.up[0].id !in s.seen {
      ServeKeeps(s.snd, s.up[0].req);
      ServedPage(s.snd, s.up[0].req);
      var n := Serve(s.snd, s.up[0].req);
      ReplyHonest(cfg, s.down, n.1, s.up[0]);
      var t := ServeHead(cfg, s);
      assert t.snd == n.0 && t.rcv == s.rcv && t.assembled == s.assembled && t.down == s.down + Reply(cfg, n.1, s.up[0]);
    }
  }

  lemma TimeoutTables(r: State)
    requires WellFormed(r)
    ensures Timeout(r).0.parts == r.parts && Timeout(r).0.hashmap == r.hashmap
  {
    if r.status.Transferring? && r.retries > 0 {
      RetryingKeeps(r);
      RequestTables(Retrying(r));
    }
  }

  lemma TimeoutHonest(cfg: Config, s: System)
    requires Honest(cfg, s)
    ensures WellFormed(Timeout(s.rcv).0) && Honest(cfg, Emit(s, Timeout(s.rcv).0, Timeout(s.rcv).1))
  {
    TimeoutKeeps(s.rcv);
    TimeoutTables(s.rcv);
    EmitHonest(cfg, s, Timeout(s.rcv).0, Timeout(s.rcv).1);
  }

  lemma StepHonest(cfg: Config, s: System, e: Event)
    requires Honest(cfg, s)
    ensures Honest(cfg, Step(cfg, s, e))
  {
    match e {
      case DeliverUp => ServeHonest(cfg, s);
      case DeliverDown(obs) => AcceptHonest(cfg, s, obs);
      case DuplicateDown(k) =>
        if k < |s.down| {
          RepeatIndex(s.down, k);
        }
      case ReceiverTimeout => TimeoutHonest(cfg, s);
      case _ =>
    }
  }

  /** A part that fits no open slot leaves the slots as they are. */
  lemma UnfitPart(r: State, data: Bytes, ph: MapHash)
    requires WellFormed(r) && !Fits(r, ph)
    ensures Filled(r, data, ph) == r.(status := Transferring)
  {
    var lo := Max(r.completed, 0);
    var s := Store(r.parts, r.hashmap, lo, lo + r.window, ph, data);
    forall i | 0 <= i < |s|
      ensures s[i] == r.parts[i]
    {
    }
    assert s == r.parts;
  }

  lemma UnfitInv(cfg: Config, s: System, data: Bytes, obs: Observation)
    requires ValidConfig(cfg) && Inv(cfg, s) && !Fits(s.rcv, cfg.mapHash(data))
    ensures var (r, o, start) := ReceivePart(s.rcv, data, cfg.mapHash(data), obs);
            WellFormed(r) && Inv(cfg, Emit(s, r, o))
  {
    var ph := cfg.mapHash(data);
    ReceivePartKeeps(s.rcv, data, ph, obs);
    var r0 := NoteResponse(s.rcv, obs);
    AdvanceReceiver(cfg, s, r0);
    if !s.rcv.status.Failed? {
      UnfitPart(r0, data, ph);
      var r1 := r0.(status := Transferring);
      AdvanceReceiver(cfg, s, r1);
      AfterFillInv(cfg, s, r1, obs);
    }
  }

  lemma HearOk(i: Incoming, data: Bytes, obs: Observation)
    requires IncomingOk(i)
    ensures IncomingOk(Hear(i, data, obs))
  {
    if i.sys.listening {
      PartHonest(i.cfg, i.sys, data, obs);
      if i.clean && !Fits(i.sys.rcv, i.cfg.mapHash(data)) {
        var start := ReceivePart(i.sys.rcv, data, i.cfg.mapHash(data), obs).2;
        UnfitInv(i.cfg, Started(i.sys, start), data, obs);
      }
    }
  }

  lemma MovedOk(l: Link, k: nat, e: Event, seen: nat -> Observation, j: nat)
    requires LinkOk(l) && k < |l.incoming| && j < |l.incoming|
    ensures IncomingOk(Moved(l, k, e, seen, j))
  {
    var i := l.incoming[j];
    assert IncomingOk(i);
    var part := Arriving(l.incoming[k].sys, e);
    if j == k {
      StepHonest(i.cfg, i.sys, e);
      if i.clean {
        StepInv(i.cfg, i.sys, e);
      }
    } else if part.Some? {
      HearOk(i, part.value, seen(j));
    }
  }

  lemma LinkStepOk(l: Link, e: LinkEvent)
    requires LinkOk(l)
    ensures LinkOk(LinkStep(l, e))
  {
    match e {
      case Begin(cfg) =>
        if ValidConfig(cfg) {
          StartInv(cfg, l.lastWindow);
          InvHonest(cfg, Start(cfg, l.lastWindow));
        }
      case Advance(k, event, seen) =>
        if k < |l.incoming| {
          forall j | 0 <= j < |l.incoming|
            ensures IncomingOk(Moved(l, k, event, seen, j))
          {
            MovedOk(l, k, event, seen, j);
          }
        }
      case Conclude(k) =>
        if k < |l.incoming| {
          assert IncomingOk(l.incoming[k]);
        }
    }
  }

  // ---- every run ----

  ghost function LinkRun(events: seq<LinkEvent>): (l: Link)
    ensures LinkOk(l)
  {
    if events == [] then Link(None, [])
    else
      var l := LinkRun(events[..|events| - 1]);
      LinkStepOk(l, events[|events| - 1]);
      LinkStep(l, events[|events| - 1])
  }

  /** Over any number of resources on a link, one after another or side by side, each hearing the parts of all: the
      window of each stays within the bounds the guard size relies on, and so does the one handed on; the counters are
      exact, and assembly is only ever started with no slot empty. */
  lemma WindowsInEveryLinkRun(events: seq<LinkEvent>, k: nat)
    requires k < |LinkRun(events).incoming|
    ensures var l := LinkRun(events); var r := l.incoming[k].sys.rcv;
            && WINDOW_MIN <= r.windowMin <= r.window <= WINDOW_MAX_FAST
            && (l.lastWindow.Some? ==> WINDOW_MIN <= l.lastWindow.value <= WINDOW_MAX_FAST)
            && (forall i :: 0 <= i <= r.completed ==> r.parts[i].Some?)
            && (r.completed + 1 < |r.parts| ==> r.parts[r.completed + 1].None?)
            && r.received == |set i | 0 <= i < |r.parts| && r.parts[i].Some?|
            && (r.assemblyLock ==> forall i :: 0 <= i < |r.parts| ==> r.parts[i].Some?)
  {
    assert IncomingOk(LinkRun(events).incoming[k]);
  }

  /** Over any number of resources on a link, a filled slot holds the sender's part of that index, or another part with
      its map hash; the second only if a part of another resource has fitted an open slot. The same holds of what is
      assembled, and as long as no such part came, the sender meets no sequencing error and no handler raises. */
  lemma SlotsInEveryLinkRun(events: seq<LinkEvent>, k: nat)
    requires k < |LinkRun(events).incoming|
    ensures var i := LinkRun(events).incoming[k]; var r := i.sys.rcv; var n := |i.cfg.parts|;
            && |r.parts| == n
            && (forall p :: 0 <= p < n && r.parts[p].Some? ==>
                  && i.cfg.mapHash(r.parts[p].value) == i.cfg.mapHash(i.cfg.parts[p])
                  && (i.clean ==> r.parts[p].value == i.cfg.parts[p]))
            && (i.sys.assembled.Some? ==>
                  && |i.sys.assembled.value| == n
                  && (forall p :: 0 <= p < n ==>
                        i.cfg.mapHash(i.sys.assembled.value[p]) == i.cfg.mapHash(i.cfg.parts[p]))
                  && (i.clean ==> i.sys.assembled.value == i.cfg.parts))
            && (i.clean ==> !i.sys.sequencingError && !i.sys.raised)
  {
    assert IncomingOk(LinkRun(events).incoming[k]);
  }
}
