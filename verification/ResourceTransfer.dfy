/** One Resource transfer: a sender and a receiver joined by two first-in first-out channels
    that may lose and duplicate packets. A run is any sequence of events. Packets carry
    history fields (`meant`, `c`, `t`) that no handler reads: the indices a request meant, and
    the receiver's completed prefix and table height when the request was sent. */
module ResourceTransfer {
  import opened Prelude
  import opened ResourceReceiver
  import opened ResourceSender

  datatype Config = Config(parts: seq<Bytes>, mapHash: Bytes -> MapHash)

  datatype UpPacket = UpPacket(id: nat, req: Request, meant: seq<int>, c: int, t: nat)

  datatype DownPacket =
    | PartPacket(data: Bytes, index: int, c: int, t: nat)
    | PagePacket(page: Page, t: nat)

  datatype System = System(
    snd: Sender,
    rcv: State,
    up: seq<UpPacket>,
    down: seq<DownPacket>,
    nextId: nat,
    seen: set<nat>,              // req_hashlist
    listening: bool,             // the receiver is still registered on its link
    assembled: Option<seq<Bytes>>,
    asked: nat,                  // history: height named by the last page request served
    last: Option<UpPacket>,      // history: the last request sent
    starts: nat,                 // history: how often assembly was started
    sequencingError: bool,
    raised: bool)

  datatype Event =
    | DeliverUp | DropUp(k: nat) | DuplicateUp(k: nat)
    | DeliverDown(obs: Observation) | DropDown(k: nat) | DuplicateDown(k: nat)
    | ReceiverTimeout | ReceiverCancel | SenderCancel | Assemble

  function Hashes(cfg: Config): (h: seq<MapHash>)
    ensures |h| == |cfg.parts|
    ensures forall i :: 0 <= i < |h| ==> h[i] == cfg.mapHash(cfg.parts[i])
  {
    seq(|cfg.parts|, i requires 0 <= i < |cfg.parts| => cfg.mapHash(cfg.parts[i]))
  }

  /** The collision guard: equal map hashes are more than COLLISION_GUARD_SIZE apart. */
  ghost predicate Guarded(hashes: seq<MapHash>) {
    forall i, j :: 0 <= i < j < |hashes| && j - i <= COLLISION_GUARD_SIZE ==> hashes[i] != hashes[j]
  }

  ghost predicate ValidConfig(cfg: Config) {
    |cfg.parts| > 0 && Guarded(Hashes(cfg))
  }

  ghost predicate InheritedWindow(w: Option<nat>) {
    w.Some? ==> WINDOW_MIN <= w.value <= WINDOW_MAX_FAST
  }

  // ---- steps ----

  function Emit(s: System, r: State, o: Output): System
    requires |r.hashmap| == |r.parts| && -1 <= r.completed < |r.parts|
  {
    match o
    case Silent => s.(rcv := r)
    case Raised => s.(rcv := r, raised := true)
    case Ask(req) =>
      var e := UpPacket(s.nextId, req, RequestIndices(r), r.completed, r.height);
      s.(rcv := r, nextId := s.nextId + 1, up := s.up + [e], last := Some(e))
  }

  /** The sender has advertised and the receiver has set up empty tables. */
  function Advertise(cfg: Config, previousWindow: Option<nat>): System {
    var hashes := Hashes(cfg);
    System(Sender(Advertised, hashes, seq(|hashes|, i => false), 0, 0, 4), Fresh(|cfg.parts|, previousWindow),
           [], [], 0, {}, true, None, 0, None, 0, false, false)
  }

  /** Resource.accept: the first page comes with the advertisement. */
  function Start(cfg: Config, previousWindow: Option<nat>): System
    requires |cfg.parts| > 0
  {
    var (r, o) := HashmapUpdate(Fresh(|cfg.parts|, previousWindow), 0, PageOf(Hashes(cfg), 0).hashes);
    Emit(Advertise(cfg, previousWindow), r, o)
  }

  function PartPackets(cfg: Config, idx: seq<int>, c: int, t: nat): seq<DownPacket>
    requires forall k :: 0 <= k < |idx| ==> 0 <= idx[k] < |cfg.parts|
  {
    seq(|idx|, k requires 0 <= k < |idx| => PartPacket(cfg.parts[idx[k]], idx[k], c, t))
  }

  function Reply(cfg: Config, resp: Response, e: UpPacket): seq<DownPacket>
    requires forall k :: 0 <= k < |resp.parts| ==> 0 <= resp.parts[k] < |cfg.parts|
  {
    PartPackets(cfg, resp.parts, e.c, e.t) + (if resp.page.Some? then [PagePacket(resp.page.value, e.t)] else [])
  }

  function RemoveAt<T>(q: seq<T>, k: nat): seq<T> {
    if k < |q| then q[..k] + q[k + 1..] else q
  }

  function RepeatAt<T>(q: seq<T>, k: nat): seq<T> {
    if k < |q| then q[..k] + [q[k]] + q[k..] else q
  }

  /** A request reaches the sender; a packet seen before is ignored (Link.receive). */
  function ServeHead(cfg: Config, s: System): System
    requires Consistent(s.snd) && s.snd.hashes == Hashes(cfg)
  {
    if s.up == [] then s
    else
      var e := s.up[0];
      var s1 := s.(up := s.up[1..]);
      if e.id in s.seen then s1
      else
        ServeKeeps(s.snd, e.req);
        var (snd, resp) := Serve(s.snd, e.req);
        s1.(snd := snd, seen := s.seen + {e.id}, down := s.down + Reply(cfg, resp, e),
            asked := if e.req.exhausted && !s.snd.status.Cancelled? then e.t else s.asked,
            sequencingError := s.sequencingError || resp.sequencingError)
  }

  function Started(s: System, start: bool): System {
    if start then s.(starts := s.starts + 1) else s
  }

  function AcceptHead(cfg: Config, s: System, obs: Observation): System
    requires WellFormed(s.rcv)
  {
    if s.down == [] then s
    else
      var d := s.down[0];
      var s1 := s.(down := s.down[1..]);
      if !s.listening then s1
      else match d
        case PartPacket(data, _, _, _) =>
          ReceivePartKeeps(s.rcv, data, cfg.mapHash(data), obs);
          var (r, o, start) := ReceivePart(s.rcv, data, cfg.mapHash(data), obs);
          Emit(Started(s1, start), r, o)
        case PagePacket(page, _) =>
          // hashmap_update_packet
          var r0 := if s.rcv.status.Failed? then s.rcv else s.rcv.(retries := MAX_RETRIES);
          HashmapUpdateKeeps(r0, page.segment, page.hashes);
          var (r, o) := HashmapUpdate(r0, page.segment, page.hashes);
          Emit(s1, r, o)
  }

  function Contents(parts: seq<Option<Bytes>>): (d: seq<Bytes>)
    requires forall i :: 0 <= i < |parts| ==> parts[i].Some?
    ensures |d| == |parts|
  {
    seq(|parts|, i requires 0 <= i < |parts| => parts[i].value)
  }

  ghost function Step(cfg: Config, s: System, e: Event): System
    requires WellFormed(s.rcv) && Consistent(s.snd) && s.snd.hashes == Hashes(cfg)
  {
    match e
    case DeliverUp => ServeHead(cfg, s)
    case DropUp(k) => s.(up := RemoveAt(s.up, k))
    case DuplicateUp(k) => s.(up := RepeatAt(s.up, k))
    case DeliverDown(obs) => AcceptHead(cfg, s, obs)
    case DropDown(k) => s.(down := RemoveAt(s.down, k))
    case DuplicateDown(k) => s.(down := RepeatAt(s.down, k))
    case ReceiverTimeout =>
      if s.listening then
        TimeoutKeeps(s.rcv);
        var (r, o) := Timeout(s.rcv);
        Emit(s, r, o)
      else s
    case ReceiverCancel => s.(rcv := Cancel(s.rcv), listening := false)
    case SenderCancel => if s.snd.status.Done? then s else s.(snd := s.snd.(status := Cancelled))
    case Assemble =>
      if s.rcv.assemblyLock && s.listening && !s.rcv.status.Failed? then
        s.(rcv := s.rcv.(status := Assembling), listening := false, assembled := Some(Contents(s.rcv.parts)))
      else s
  }

  // ---- the invariant ----

  /** The known hashes are the sender's first `height`, whole pages of them, and every filled
      slot holds the sender's part of that index. */
  ghost predicate TablesOk(cfg: Config, parts: seq<Option<Bytes>>, hashmap: seq<Option<MapHash>>, height: nat) {
    var n := |cfg.parts|;
    && |parts| == |hashmap| == n
    && 1 <= height <= n && (height == n || height % HASHMAP_MAX_LEN == 0)
    && (forall i :: 0 <= i < n ==> hashmap[i] == if i < height then Some(Hashes(cfg)[i]) else None)
    && (forall i :: 0 <= i < n && parts[i].Some? ==> i < height && parts[i].value == cfg.parts[i])
  }

  ghost predicate ReceiverOk(cfg: Config, r: State) {
    WellFormed(r) && TablesOk(cfg, r.parts, r.hashmap, r.height)
  }

  ghost predicate SenderOk(cfg: Config, snd: Sender, asked: nat) {
    && Consistent(snd) && snd.hashes == Hashes(cfg)
    && snd.minHeight == Max(asked - 1 - WINDOW_MAX_FAST, 0)
    && asked % HASHMAP_MAX_LEN == 0
  }

  /** The receiver is at most one page ahead of the last page request served, and its completed
      prefix is at most one window behind it. */
  ghost predicate InStep(asked: nat, height: nat, completed: int) {
    asked <= height <= asked + HASHMAP_MAX_LEN && asked - WINDOW_MAX_FAST <= completed
  }

  ghost predicate UpOk(cfg: Config, asked: nat, height: nat, completed: int, e: UpPacket) {
    var n := |cfg.parts|;
    && asked <= e.t <= height && e.t <= n && (e.t == n || e.t % HASHMAP_MAX_LEN == 0)
    && Max(asked - WINDOW_MAX_FAST, -1) <= e.c <= completed
    && Ascending(e.meant)
    && (forall k :: 0 <= k < |e.meant| ==> e.c < e.meant[k] <= e.c + WINDOW_MAX_FAST && e.meant[k] < e.t)
    && |e.req.wanted| == |e.meant|
    && (forall k :: 0 <= k < |e.meant| ==> e.req.wanted[k] == Hashes(cfg)[e.meant[k]])
    && (e.req.exhausted ==>
          e.t < n && 0 < e.t && e.req.last == Hashes(cfg)[e.t - 1] && e.t - WINDOW_MAX_FAST <= e.c)
  }

  ghost predicate DownOk(cfg: Config, height: nat, completed: int, d: DownPacket) {
    var n := |cfg.parts|;
    && d.t <= height <= d.t + HASHMAP_MAX_LEN
    && match d
       case PartPacket(data, index, c, t) =>
         && 0 <= index < n && data == cfg.parts[index]
         && c < index <= c + WINDOW_MAX_FAST && index < t
         && -1 <= c <= completed && t <= c + WINDOW_MAX_FAST + HASHMAP_MAX_LEN
       case PagePacket(page, t) =>
         && 0 < t < n && t == page.segment * HASHMAP_MAX_LEN && page == PageOf(Hashes(cfg), page.segment)
  }

  ghost predicate UpsOk(cfg: Config, asked: nat, height: nat, completed: int, up: seq<UpPacket>) {
    && (forall k :: 0 <= k < |up| ==> UpOk(cfg, asked, height, completed, up[k]))
    && (forall i, j :: 0 <= i < j < |up| ==> up[i].t <= up[j].t && up[i].c <= up[j].c)
  }

  ghost predicate DownsOk(cfg: Config, height: nat, completed: int, down: seq<DownPacket>) {
    && (forall k :: 0 <= k < |down| ==> DownOk(cfg, height, completed, down[k]))
    && (forall i, j :: 0 <= i < j < |down| ==> down[i].t <= down[j].t)
  }

  /** Every packet on its way down answers a request no later than those on their way up. */
  ghost predicate Behind(down: seq<DownPacket>, up: seq<UpPacket>) {
    forall i, j :: 0 <= i < |down| && 0 <= j < |up| ==> down[i].t <= up[j].t
  }

  /** A page on its way down was asked for by a request the sender has served. */
  ghost predicate PagesServed(asked: nat, down: seq<DownPacket>) {
    forall k :: 0 <= k < |down| && down[k].PagePacket? ==> down[k].t <= asked
  }

  ghost predicate Channels(cfg: Config, asked: nat, height: nat, completed: int, up: seq<UpPacket>, down: seq<DownPacket>) {
    && UpsOk(cfg, asked, height, completed, up)
    && DownsOk(cfg, height, completed, down)
    && Behind(down, up)
    && PagesServed(asked, down)
  }

  ghost predicate Inv(cfg: Config, s: System) {
    && ReceiverOk(cfg, s.rcv)
    && SenderOk(cfg, s.snd, s.asked)
    && InStep(s.asked, s.rcv.height, s.rcv.completed)
    && Channels(cfg, s.asked, s.rcv.height, s.rcv.completed, s.up, s.down)
    && !s.sequencingError && !s.raised
    && (s.assembled.Some? ==> s.assembled.value == cfg.parts)
  }

  // ---- the receiver moves ----

  /** The receiver may fill slots and learn pages, as long as no packet in flight is left too far behind. */
  lemma AdvanceReceiver(cfg: Config, s: System, r: State)
    requires Inv(cfg, s) && ReceiverOk(cfg, r)
    requires r.completed >= s.rcv.completed && r.height >= s.rcv.height
    requires r.height <= s.asked + HASHMAP_MAX_LEN
    requires forall k :: 0 <= k < |s.down| ==> r.height <= s.down[k].t + HASHMAP_MAX_LEN
    ensures Inv(cfg, s.(rcv := r))
  {
  }

  lemma MeantShape(cfg: Config, r: State)
    requires ReceiverOk(cfg, r)
    ensures var m := RequestIndices(r);
            && Ascending(m)
            && forall k :: 0 <= k < |m| ==> r.completed < m[k] <= r.completed + WINDOW_MAX_FAST && m[k] < r.height
                                            && HashesAt(r.hashmap, m)[k] == Hashes(cfg)[m[k]]
  {
    var m := RequestIndices(r);
    MissingAscending(r.parts, r.completed + 1, RequestStop(r));
    forall k | 0 <= k < |m|
      ensures r.completed < m[k] <= r.completed + WINDOW_MAX_FAST && m[k] < r.height
      ensures HashesAt(r.hashmap, m)[k] == Hashes(cfg)[m[k]]
    {
      assert r.hashmap[m[k]].Some?;
    }
  }

  lemma ExhaustedShape(cfg: Config, r: State)
    requires ReceiverOk(cfg, r) && RequestExhausted(r)
    ensures r.height < |cfg.parts| && r.height - WINDOW_MAX_FAST <= r.completed
  {
    assert r.hashmap[RequestStop(r)].None?;
  }

  /** An honest receiver's page request names the last of the sender's hashes it knows. */
  lemma RequestSays(cfg: Config, r: State)
    requires ReceiverOk(cfg, r)
    ensures !Raises(r)
    ensures RequestExhausted(r) ==> r.height < |cfg.parts| && r.height - WINDOW_MAX_FAST <= r.completed
                                    && AskFor(r).last == Hashes(cfg)[r.height - 1]
  {
    assert r.hashmap[r.height - 1] == Some(Hashes(cfg)[r.height - 1]);
    if RequestExhausted(r) {
      ExhaustedShape(cfg, r);
    }
  }

  lemma SameRequest(r: State, s: State)
    requires |r.hashmap| == |r.parts| && -1 <= r.completed < |r.parts|
    requires s.parts == r.parts && s.hashmap == r.hashmap && s.completed == r.completed && s.window == r.window
    ensures RequestIndices(s) == RequestIndices(r)
  {
  }

  lemma AskOk(cfg: Config, asked: nat, r: State, id: nat)
    requires ReceiverOk(cfg, r) && InStep(asked, r.height, r.completed) && !Raises(r)
    ensures UpOk(cfg, asked, r.height, r.completed, UpPacket(id, AskFor(r), RequestIndices(r), r.completed, r.height))
  {
    RequestSays(cfg, r);
    MeantShape(cfg, r);
  }

  /** What an honest receiver's request says. */
  lemma RequestShape(cfg: Config, asked: nat, r: State, id: nat)
    requires ReceiverOk(cfg, r) && InStep(asked, r.height, r.completed) && !r.status.Failed? && !r.waiting
    ensures var (r', o) := RequestNext(r);
            && o.Ask?
            && UpOk(cfg, asked, r.height, r.completed, UpPacket(id, o.req, RequestIndices(r'), r'.completed, r'.height))
  {
    RequestSays(cfg, r);
    AskOk(cfg, asked, r, id);
    SameRequest(r, RequestNext(r).0);
  }

  lemma AppendUp(cfg: Config, asked: nat, height: nat, completed: int, up: seq<UpPacket>, down: seq<DownPacket>, e: UpPacket)
    requires Channels(cfg, asked, height, completed, up, down)
    requires UpOk(cfg, asked, height, completed, e) && e.t == height && e.c == completed
    ensures Channels(cfg, asked, height, completed, up + [e], down)
  {
  }

  /** Sending the next request keeps the invariant. */
  lemma EmitKeeps(cfg: Config, s: System, r: State)
    requires Inv(cfg, s.(rcv := r))
    ensures var (r', o) := RequestNext(r); Inv(cfg, Emit(s, r', o))
  {
    RequestNextKeeps(r);
    var (r', o) := RequestNext(r);
    if !r.status.Failed? && !r.waiting {
      RequestShape(cfg, s.asked, r, s.nextId);
      AppendUp(cfg, s.asked, r.height, r.completed, s.up, s.down,
               UpPacket(s.nextId, o.req, RequestIndices(r'), r'.completed, r'.height));
    }
  }

  /** The guard at work: a slot that accepts a part in flight is the slot the part was cut for. */
  lemma SlotIsMeant(cfg: Config, r: State, d: DownPacket, j: int)
    requires ValidConfig(cfg) && ReceiverOk(cfg, r)
    requires d.PartPacket? && DownOk(cfg, r.height, r.completed, d)
    requires Max(r.completed, 0) <= j < |r.parts| && r.hashmap[j] == Some(cfg.mapHash(d.data))
    ensures j == d.index
  {
    assert Hashes(cfg)[j] == Hashes(cfg)[d.index];
  }

  lemma FilledOk(cfg: Config, r: State, d: DownPacket)
    requires ValidConfig(cfg) && ReceiverOk(cfg, r) && !r.status.Failed?
    requires d.PartPacket? && DownOk(cfg, r.height, r.completed, d)
    ensures ReceiverOk(cfg, Filled(r, d.data, cfg.mapHash(d.data)))
  {
    var ph := cfg.mapHash(d.data);
    var s := Filled(r, d.data, ph);
    FilledKeeps(r, d.data, ph);
    forall i | 0 <= i < |cfg.parts| && s.parts[i].Some?
      ensures i < r.height && s.parts[i].value == cfg.parts[i]
    {
      if r.parts[i].None? {
        SlotIsMeant(cfg, r, d, i);
      }
    }
  }

  lemma PartArrives(cfg: Config, s: System, d: DownPacket, obs: Observation)
    requires ValidConfig(cfg) && Inv(cfg, s)
    requires d.PartPacket? && DownOk(cfg, s.rcv.height, s.rcv.completed, d)
    ensures var (r, o, start) := ReceivePart(s.rcv, d.data, cfg.mapHash(d.data), obs);
            |r.hashmap| == |r.parts| && -1 <= r.completed < |r.parts| && Inv(cfg, Emit(s, r, o))
  {
    var ph := cfg.mapHash(d.data);
    ReceivePartKeeps(s.rcv, d.data, ph, obs);
    var r0 := NoteResponse(s.rcv, obs);
    assert ReceiverOk(cfg, r0);
    if s.rcv.status.Failed? {
      AdvanceReceiver(cfg, s, r0);
    } else {
      FilledOk(cfg, r0, d);
      FilledKeeps(r0, d.data, ph);
      var r1 := Filled(r0, d.data, ph);
      AdvanceReceiver(cfg, s, r1);
      AfterFillInv(cfg, s, r1, obs);
    }
  }

  lemma AfterFillInv(cfg: Config, s: System, r: State, obs: Observation)
    requires Inv(cfg, s.(rcv := r))
    ensures var (r', o, start) := AfterFill(r, obs);
            |r'.hashmap| == |r'.parts| && -1 <= r'.completed < |r'.parts| && Inv(cfg, Emit(s, r', o))
  {
    AfterFillKeeps(r, obs);
    if r.received == |r.parts| && !r.assemblyLock {
      AdvanceReceiver(cfg, s.(rcv := r), r.(assemblyLock := true));
    } else if r.outstanding == 0 {
      var r2 := EndRound(r, obs);
      WindowsKeep(r, r2);
      AdvanceReceiver(cfg, s.(rcv := r), r2);
      EmitKeeps(cfg, s, r2);
    }
  }

  /** The entries of the table after a page of the sender's hashes was written at `t`. */
  lemma PageEntries(hashes: seq<MapHash>, hashmap: seq<Option<MapHash>>, height: nat, segment: nat)
    requires |hashmap| == |hashes| && segment * HASHMAP_MAX_LEN <= height <= |hashes|
    requires forall i :: 0 <= i < |hashes| ==> hashmap[i] == if i < height then Some(hashes[i]) else None
    ensures var t := segment * HASHMAP_MAX_LEN;
            var hm := Put(hashmap, t, PageOf(hashes, segment).hashes);
            var h := Max(height, Min(t + HASHMAP_MAX_LEN, |hashes|));
            && (forall i :: 0 <= i < |hashes| ==> hm[i] == if i < h then Some(hashes[i]) else None)
            && |KnownSet(hm)| == h
            && t + |PageOf(hashes, segment).hashes| <= |hashes|
  {
    var t := segment * HASHMAP_MAX_LEN;
    var hm := Put(hashmap, t, PageOf(hashes, segment).hashes);
    var h := Max(height, Min(t + HASHMAP_MAX_LEN, |hashes|));
    assert KnownSet(hm) == Range(h);
    RangeSize(h);
  }

  /** A page starting at or below the table height extends the known prefix by whole pages. */
  lemma PageExtends(cfg: Config, r: State, page: Page, t: nat)
    requires ReceiverOk(cfg, r) && t <= r.height
    requires t == page.segment * HASHMAP_MAX_LEN && t < |cfg.parts| && page == PageOf(Hashes(cfg), page.segment)
    ensures var hm := Put(r.hashmap, t, page.hashes);
            var h := Max(r.height, Min(t + HASHMAP_MAX_LEN, |cfg.parts|));
            && |KnownSet(hm)| == h && TablesOk(cfg, r.parts, hm, h)
            && t + |page.hashes| <= |cfg.parts|
  {
    PageEntries(Hashes(cfg), r.hashmap, r.height, page.segment);
    assert (t + HASHMAP_MAX_LEN) % HASHMAP_MAX_LEN == 0;
  }

  lemma PageArrives(cfg: Config, s: System, d: DownPacket, r0: State)
    requires Inv(cfg, s.(rcv := r0)) && ReceiverOk(cfg, r0)
    requires d.PagePacket? && DownOk(cfg, r0.height, r0.completed, d) && d.t <= s.asked
    requires forall k :: 0 <= k < |s.down| ==> d.t <= s.down[k].t
    ensures var (r, o) := HashmapUpdate(r0, d.page.segment, d.page.hashes);
            |r.hashmap| == |r.parts| && -1 <= r.completed < |r.parts| && Inv(cfg, Emit(s, r, o))
  {
    HashmapUpdateKeeps(r0, d.page.segment, d.page.hashes);
    if !r0.status.Failed? {
      PageExtends(cfg, r0, d.page, d.t);
      var hm := Put(r0.hashmap, d.t, d.page.hashes);
      var r1 := r0.(status := Transferring, hashmap := hm, height := |KnownSet(hm)|, waiting := false);
      assert ReceiverOk(cfg, r1);
      AdvanceReceiver(cfg, s.(rcv := r0), r1);
      EmitKeeps(cfg, s, r1);
    }
  }

  lemma AcceptKeeps(cfg: Config, s: System, obs: Observation)
    requires ValidConfig(cfg) && Inv(cfg, s)
    ensures Inv(cfg, AcceptHead(cfg, s, obs))
  {
    if s.down != [] {
      var d := s.down[0];
      var s1 := s.(down := s.down[1..]);
      assert Inv(cfg, s1);
      assert DownOk(cfg, s.rcv.height, s.rcv.completed, d);
      if s.listening {
        match d {
          case PartPacket(data, _, _, _) =>
            var start := ReceivePart(s.rcv, data, cfg.mapHash(data), obs).2;
            PartArrives(cfg, Started(s1, start), d, obs);
          case PagePacket(_, _) =>
            var r0 := if s.rcv.status.Failed? then s.rcv else s.rcv.(retries := MAX_RETRIES);
            AdvanceReceiver(cfg, s1, r0);
            PageArrives(cfg, s1, d, r0);
        }
      }
    }
  }

  lemma RetryInv(cfg: Config, s: System)
    requires Inv(cfg, s) && s.rcv.retries > 0
    ensures Inv(cfg, s.(rcv := Retrying(s.rcv)))
  {
    RetryingKeeps(s.rcv);
    AdvanceReceiver(cfg, s, Retrying(s.rcv));
  }

  lemma CancelInv(cfg: Config, s: System)
    requires Inv(cfg, s)
    ensures Inv(cfg, s.(rcv := Cancel(s.rcv)))
  {
    AdvanceReceiver(cfg, s, Cancel(s.rcv));
  }

  lemma TimeoutInv(cfg: Config, s: System)
    requires Inv(cfg, s)
    ensures var (r, o) := Timeout(s.rcv);
            |r.hashmap| == |r.parts| && -1 <= r.completed < |r.parts| && Inv(cfg, Emit(s, r, o))
  {
    TimeoutKeeps(s.rcv);
    if s.rcv.status.Transferring? {
      if s.rcv.retries == 0 {
        CancelInv(cfg, s);
      } else {
        RetryInv(cfg, s);
        EmitKeeps(cfg, s, Retrying(s.rcv));
      }
    }
  }

  // ---- the sender moves ----

  /** In a guarded table a scope no wider than the guard shows every hash once, so the parts that
      match the hashes of some indices inside the scope are those indices. */
  lemma ScopeResolves(hashes: seq<MapHash>, lo: nat, hi: nat, meant: seq<int>, wanted: seq<MapHash>)
    requires Guarded(hashes) && lo <= hi <= |hashes| && hi <= lo + COLLISION_GUARD_SIZE
    requires Ascending(meant) && |wanted| == |meant|
    requires forall k :: 0 <= k < |meant| ==> lo <= meant[k] < hi && wanted[k] == hashes[meant[k]]
    ensures Matches(hashes, lo, hi, wanted) == meant
  {
    var m := Matches(hashes, lo, hi, wanted);
    MatchesSound(hashes, lo, hi, wanted);
    forall k | 0 <= k < |meant| ensures meant[k] in m {
      assert wanted[k] in wanted;
    }
    forall k | 0 <= k < |m| ensures m[k] in meant {
      var q :| 0 <= q < |wanted| && wanted[q] == hashes[m[k]];
      assert meant[q] == m[k];
    }
    AscendingUnique(meant, m);
  }

  lemma ScopeLocates(hashes: seq<MapHash>, lo: nat, hi: nat, t: nat)
    requires Guarded(hashes) && lo < t <= hi <= |hashes| && hi <= lo + COLLISION_GUARD_SIZE
    ensures Locate(hashes, lo, hi, hashes[t - 1]) == t
  {
    var k := Locate(hashes, lo, hi, hashes[t - 1]);
    assert hashes[k - 1] == hashes[t - 1];
  }

  /** What a request in flight means lies inside the sender's search scope. */
  lemma InScope(n: nat, asked: nat, e: UpPacket, minHeight: nat)
    requires minHeight == Max(asked - 1 - WINDOW_MAX_FAST, 0) && e.t <= n
    requires asked <= e.t <= asked + HASHMAP_MAX_LEN && Max(asked - WINDOW_MAX_FAST, -1) <= e.c
    requires forall k :: 0 <= k < |e.meant| ==> e.c < e.meant[k] <= e.c + WINDOW_MAX_FAST && e.meant[k] < e.t
    ensures var hi := Min(minHeight + COLLISION_GUARD_SIZE, n);
            (forall k :: 0 <= k < |e.meant| ==> minHeight <= e.meant[k] < hi) && (0 < e.t ==> minHeight < e.t <= hi)
  {
  }

  /** Every request in flight resolves to the parts it meant, all inside the search scope, and every
      page request to the end of the receiver's table. */
  lemma ResolvesAsMeant(cfg: Config, snd: Sender, asked: nat, height: nat, completed: int, e: UpPacket)
    requires ValidConfig(cfg) && SenderOk(cfg, snd, asked) && InStep(asked, height, completed)
    requires UpOk(cfg, asked, height, completed, e)
    ensures forall k :: 0 <= k < |e.meant| ==> snd.minHeight <= e.meant[k] < ScopeEnd(snd)
    ensures Matches(snd.hashes, snd.minHeight, ScopeEnd(snd), e.req.wanted) == e.meant
    ensures e.req.exhausted ==> Locate(snd.hashes, snd.minHeight, ScopeEnd(snd), e.req.last) == e.t
  {
    InScope(|cfg.parts|, asked, e, snd.minHeight);
    ScopeResolves(snd.hashes, snd.minHeight, ScopeEnd(snd), e.meant, e.req.wanted);
    if e.req.exhausted {
      ScopeLocates(snd.hashes, snd.minHeight, ScopeEnd(snd), e.t);
    }
  }

  /** The reply to a request in flight: exactly the parts it meant and, if asked for, exactly the next page. */
  lemma ServedAsMeant(cfg: Config, s: System, e: UpPacket)
    requires ValidConfig(cfg) && Inv(cfg, s) && !s.snd.status.Cancelled?
    requires UpOk(cfg, s.asked, s.rcv.height, s.rcv.completed, e)
    ensures var resp := Serve(s.snd, e.req).1;
            && resp.parts == e.meant && !resp.sequencingError
            && resp.page == if e.req.exhausted then Some(PageOf(Hashes(cfg), e.t / HASHMAP_MAX_LEN)) else None
  {
    ResolvesAsMeant(cfg, s.snd, s.asked, s.rcv.height, s.rcv.completed, e);
  }

  lemma ReplyOk(cfg: Config, asked: nat, height: nat, completed: int, e: UpPacket, resp: Response, k: nat)
    requires ValidConfig(cfg) && InStep(asked, height, completed) && UpOk(cfg, asked, height, completed, e)
    requires resp.parts == e.meant
    requires resp.page == if e.req.exhausted then Some(PageOf(Hashes(cfg), e.t / HASHMAP_MAX_LEN)) else None
    requires k < |Reply(cfg, resp, e)|
    ensures DownOk(cfg, height, completed, Reply(cfg, resp, e)[k]) && Reply(cfg, resp, e)[k].t == e.t
    ensures Reply(cfg, resp, e)[k].PagePacket? ==> e.req.exhausted
  {
  }

  lemma TailChannels(cfg: Config, asked: nat, height: nat, completed: int, up: seq<UpPacket>, down: seq<DownPacket>, e: UpPacket)
    requires Channels(cfg, asked, height, completed, [e] + up, down)
    ensures Channels(cfg, asked, height, completed, up, down)
    ensures UpOk(cfg, asked, height, completed, e)
    ensures forall j :: 0 <= j < |up| ==> e.t <= up[j].t
    ensures forall i :: 0 <= i < |down| ==> down[i].t <= e.t
  {
    var all := [e] + up;
    assert all[0] == e;
    assert forall j :: 0 <= j < |up| ==> up[j] == all[j + 1];
  }

  lemma AppendDown(cfg: Config, asked: nat, height: nat, completed: int, up: seq<UpPacket>, down: seq<DownPacket>,
                   t: nat, reply: seq<DownPacket>)
    requires Channels(cfg, asked, height, completed, up, down)
    requires forall j :: 0 <= j < |up| ==> t <= up[j].t
    requires forall i :: 0 <= i < |down| ==> down[i].t <= t
    requires forall k :: 0 <= k < |reply| ==> DownOk(cfg, height, completed, reply[k]) && reply[k].t == t
    requires forall k :: 0 <= k < |reply| && reply[k].PagePacket? ==> t <= asked
    ensures Channels(cfg, asked, height, completed, up, down + reply)
  {
    var all := down + reply;
    forall i | 0 <= i < |all|
      ensures DownOk(cfg, height, completed, all[i]) && all[i].t <= t
      ensures all[i].PagePacket? ==> all[i].t <= asked
      ensures i >= |down| ==> all[i].t == t
    {
      if i >= |down| {
        assert all[i] == reply[i - |down|];
      }
    }
    assert DownsOk(cfg, height, completed, all);
  }

  /** Once a page request is served, everything still in flight was sent at or after it. */
  lemma RaiseAsked(cfg: Config, asked: nat, height: nat, completed: int, up: seq<UpPacket>, down: seq<DownPacket>, e: UpPacket)
    requires Channels(cfg, asked, height, completed, [e] + up, down) && e.req.exhausted
    ensures Channels(cfg, e.t, height, completed, [e] + up, down)
  {
    var all := [e] + up;
    assert all[0] == e;
    forall k | 0 <= k < |all| ensures UpOk(cfg, e.t, height, completed, all[k]) {
      assert UpOk(cfg, asked, height, completed, all[k]);
      assert k > 0 ==> all[0].t <= all[k].t && all[0].c <= all[k].c;
    }
  }

  lemma ServeInv(cfg: Config, s: System)
    requires ValidConfig(cfg) && Inv(cfg, s)
    ensures Inv(cfg, ServeHead(cfg, s))
  {
    if s.up != [] {
      var e := s.up[0];
      var up := s.up[1..];
      assert s.up == [e] + up;
      TailChannels(cfg, s.asked, s.rcv.height, s.rcv.completed, up, s.down, e);
      if e.id !in s.seen {
        ServeKeeps(s.snd, e.req);
        if s.snd.status.Cancelled? {
          assert Reply(cfg, Serve(s.snd, e.req).1, e) == [];
        } else {
          ServeFresh(cfg, s, e, up);
        }
      }
    }
  }

  /** The channels after a fresh request was served. */
  lemma ServeChannels(cfg: Config, asked: nat, height: nat, completed: int, up: seq<UpPacket>, down: seq<DownPacket>,
                      e: UpPacket, resp: Response)
    requires ValidConfig(cfg) && InStep(asked, height, completed) && Channels(cfg, asked, height, completed, [e] + up, down)
    requires resp.parts == e.meant
    requires resp.page == if e.req.exhausted then Some(PageOf(Hashes(cfg), e.t / HASHMAP_MAX_LEN)) else None
    ensures forall k :: 0 <= k < |resp.parts| ==> 0 <= resp.parts[k] < |cfg.parts|
    ensures var asked' := if e.req.exhausted then e.t else asked;
            InStep(asked', height, completed) && Channels(cfg, asked', height, completed, up, down + Reply(cfg, resp, e))
  {
    TailChannels(cfg, asked, height, completed, up, down, e);
    var asked' := if e.req.exhausted then e.t else asked;
    if e.req.exhausted {
      RaiseAsked(cfg, asked, height, completed, up, down, e);
    }
    var reply := Reply(cfg, resp, e);
    forall k | 0 <= k < |reply|
      ensures DownOk(cfg, height, completed, reply[k]) && reply[k].t == e.t
      ensures reply[k].PagePacket? ==> e.t <= asked'
    {
      ReplyOk(cfg, asked, height, completed, e, resp, k);
    }
    TailChannels(cfg, asked', height, completed, up, down, e);
    AppendDown(cfg, asked', height, completed, up, down, e.t, reply);
  }

  lemma ServeFresh(cfg: Config, s: System, e: UpPacket, up: seq<UpPacket>)
    requires ValidConfig(cfg) && Inv(cfg, s) && s.up == [e] + up && e.id !in s.seen && !s.snd.status.Cancelled?
    ensures Inv(cfg, ServeHead(cfg, s))
  {
    assert e == s.up[0] && up == s.up[1..];
    ServeKeeps(s.snd, e.req);
    ServedAsMeant(cfg, s, e);
    ResolvesAsMeant(cfg, s.snd, s.asked, s.rcv.height, s.rcv.completed, e);
    ServeChannels(cfg, s.asked, s.rcv.height, s.rcv.completed, up, s.down, e, Serve(s.snd, e.req).1);
  }

  // ---- the network moves ----

  lemma DropUpInv(cfg: Config, s: System, k: nat)
    requires Inv(cfg, s)
    ensures Inv(cfg, s.(up := RemoveAt(s.up, k)))
  {
  }

  lemma DropDownInv(cfg: Config, s: System, k: nat)
    requires Inv(cfg, s)
    ensures Inv(cfg, s.(down := RemoveAt(s.down, k)))
  {
  }

  lemma RepeatIndex<T>(q: seq<T>, k: nat)
    requires k < |q|
    ensures |RepeatAt(q, k)| == |q| + 1
    ensures forall i :: 0 <= i <= |q| ==> RepeatAt(q, k)[i] == q[if i <= k then i else i - 1]
  {
  }

  lemma DuplicateUpInv(cfg: Config, s: System, k: nat)
    requires Inv(cfg, s)
    ensures Inv(cfg, s.(up := RepeatAt(s.up, k)))
  {
    if k < |s.up| {
      RepeatUps(cfg, s.asked, s.rcv.height, s.rcv.completed, s.up, s.down, k);
    }
  }

  lemma RepeatUps(cfg: Config, asked: nat, height: nat, completed: int, up: seq<UpPacket>, down: seq<DownPacket>, k: nat)
    requires Channels(cfg, asked, height, completed, up, down) && k < |up|
    ensures Channels(cfg, asked, height, completed, RepeatAt(up, k), down)
  {
    RepeatIndex(up, k);
    assert UpsOk(cfg, asked, height, completed, RepeatAt(up, k));
  }

  lemma RepeatDowns(cfg: Config, asked: nat, height: nat, completed: int, up: seq<UpPacket>, down: seq<DownPacket>, k: nat)
    requires Channels(cfg, asked, height, completed, up, down) && k < |down|
    ensures Channels(cfg, asked, height, completed, up, RepeatAt(down, k))
  {
    RepeatIndex(down, k);
    assert DownsOk(cfg, height, completed, RepeatAt(down, k));
    assert PagesServed(asked, RepeatAt(down, k));
  }

  lemma DuplicateDownInv(cfg: Config, s: System, k: nat)
    requires Inv(cfg, s)
    ensures Inv(cfg, s.(down := RepeatAt(s.down, k)))
  {
    if k < |s.down| {
      RepeatDowns(cfg, s.asked, s.rcv.height, s.rcv.completed, s.up, s.down, k);
    }
  }

  // ---- runs ----

  /** The receiver once the first page is in its table. */
  function Opened(cfg: Config, previousWindow: Option<nat>): (r: State) {
    var f := Fresh(|cfg.parts|, previousWindow);
    var hm := Put(f.hashmap, 0, PageOf(Hashes(cfg), 0).hashes);
    f.(hashmap := hm, height := |KnownSet(hm)|)
  }

  lemma OpenedOk(cfg: Config, previousWindow: Option<nat>)
    requires ValidConfig(cfg) && InheritedWindow(previousWindow)
    ensures var r := Opened(cfg, previousWindow);
            && ReceiverOk(cfg, r) && r.height <= HASHMAP_MAX_LEN
            && HashmapUpdate(Fresh(|cfg.parts|, previousWindow), 0, PageOf(Hashes(cfg), 0).hashes) == RequestNext(r)
  {
    FreshKeeps(|cfg.parts|, previousWindow);
    PageEntries(Hashes(cfg), Fresh(|cfg.parts|, previousWindow).hashmap, 0, 0);
  }

  lemma StartInv(cfg: Config, previousWindow: Option<nat>)
    requires ValidConfig(cfg) && InheritedWindow(previousWindow)
    ensures Inv(cfg, Start(cfg, previousWindow))
  {
    OpenedOk(cfg, previousWindow);
    var s := Advertise(cfg, previousWindow);
    assert SentSet(s.snd.sent) == {};
    assert Inv(cfg, s.(rcv := Opened(cfg, previousWindow)));
    EmitKeeps(cfg, s, Opened(cfg, previousWindow));
  }

  lemma ChannelInv(cfg: Config, s: System, e: Event)
    requires Inv(cfg, s) && (e.DropUp? || e.DuplicateUp? || e.DropDown? || e.DuplicateDown?)
    ensures Inv(cfg, Step(cfg, s, e))
  {
    match e {
      case DropUp(k) => DropUpInv(cfg, s, k);
      case DuplicateUp(k) => DuplicateUpInv(cfg, s, k);
      case DropDown(k) => DropDownInv(cfg, s, k);
      case DuplicateDown(k) => DuplicateDownInv(cfg, s, k);
    }
  }

  lemma EndInv(cfg: Config, s: System, e: Event)
    requires Inv(cfg, s) && (e.ReceiverCancel? || e.SenderCancel? || e.Assemble?)
    ensures Inv(cfg, Step(cfg, s, e))
  {
    if e.ReceiverCancel? {
      CancelInv(cfg, s);
    } else if e.Assemble? && s.rcv.assemblyLock && s.listening && !s.rcv.status.Failed? {
      AdvanceReceiver(cfg, s, s.rcv.(status := Assembling));
      assert Contents(s.rcv.parts) == cfg.parts;
    }
  }

  lemma StepInv(cfg: Config, s: System, e: Event)
    requires ValidConfig(cfg) && Inv(cfg, s)
    ensures Inv(cfg, Step(cfg, s, e))
  {
    if e.DeliverUp? {
      ServeInv(cfg, s);
    } else if e.DeliverDown? {
      AcceptKeeps(cfg, s, e.obs);
    } else if e.ReceiverTimeout? {
      TimeoutInv(cfg, s);
    } else if e.ReceiverCancel? || e.SenderCancel? || e.Assemble? {
      EndInv(cfg, s, e);
    } else {
      ChannelInv(cfg, s, e);
    }
  }

  /** What every step keeps whatever the packets say: exact counters on both sides. */
  ghost predicate Sane(cfg: Config, s: System) {
    WellFormed(s.rcv) && Consistent(s.snd) && s.snd.hashes == Hashes(cfg)
  }

  lemma EmitFields(s: System, r: State, o: Output)
    requires |r.hashmap| == |r.parts| && -1 <= r.completed < |r.parts|
    ensures var t := Emit(s, r, o); t.rcv == r && t.snd == s.snd && t.listening == s.listening
  {
  }

  lemma AskFields(s: System, r: State, req: Request)
    requires |r.hashmap| == |r.parts| && -1 <= r.completed < |r.parts|
    ensures var t := Emit(s, r, Ask(req));
            && t.up == s.up + [UpPacket(s.nextId, req, RequestIndices(r), r.completed, r.height)]
            && t.down == s.down && t.seen == s.seen
  {
  }

  lemma AcceptSane(cfg: Config, s: System, obs: Observation)
    requires Sane(cfg, s)
    ensures Sane(cfg, AcceptHead(cfg, s, obs))
  {
    if s.down != [] && s.listening {
      var s1 := s.(down := s.down[1..]);
      match s.down[0] {
        case PartPacket(data, _, _, _) =>
          ReceivePartKeeps(s.rcv, data, cfg.mapHash(data), obs);
          var (r, o, start) := ReceivePart(s.rcv, data, cfg.mapHash(data), obs);
          EmitFields(Started(s1, start), r, o);
        case PagePacket(page, _) =>
          var r0 := if s.rcv.status.Failed? then s.rcv else s.rcv.(retries := MAX_RETRIES);
          HashmapUpdateKeeps(r0, page.segment, page.hashes);
          var (r, o) := HashmapUpdate(r0, page.segment, page.hashes);
          EmitFields(s1, r, o);
      }
    }
  }

  lemma ServeSane(cfg: Config, s: System)
    requires Sane(cfg, s)
    ensures Sane(cfg, ServeHead(cfg, s))
  {
    if s.up != [] {
      ServeKeeps(s.snd, s.up[0].req);
    }
  }

  lemma StepSane(cfg: Config, s: System, e: Event)
    requires Sane(cfg, s)
    ensures Sane(cfg, Step(cfg, s, e))
  {
    match e {
      case DeliverUp => ServeSane(cfg, s);
      case DeliverDown(obs) => AcceptSane(cfg, s, obs);
      case ReceiverTimeout => TimeoutKeeps(s.rcv);
      case _ =>
    }
  }

  /** The state after a run of events. */
  ghost function Run(cfg: Config, previousWindow: Option<nat>, events: seq<Event>): (s: System)
    requires ValidConfig(cfg) && InheritedWindow(previousWindow)
    ensures Sane(cfg, s)
  {
    if events == [] then
      StartInv(cfg, previousWindow);
      Start(cfg, previousWindow)
    else
      var s := Run(cfg, previousWindow, events[..|events| - 1]);
      StepSane(cfg, s, events[|events| - 1]);
      Step(cfg, s, events[|events| - 1])
  }

  lemma {:induction false} RunInv(cfg: Config, previousWindow: Option<nat>, events: seq<Event>)
    requires ValidConfig(cfg) && InheritedWindow(previousWindow)
    ensures Inv(cfg, Run(cfg, previousWindow, events))
  {
    if events == [] {
      StartInv(cfg, previousWindow);
    } else {
      RunInv(cfg, previousWindow, events[..|events| - 1]);
      StepInv(cfg, Run(cfg, previousWindow, events[..|events| - 1]), events[|events| - 1]);
    }
  }

  lemma RunSnoc(cfg: Config, previousWindow: Option<nat>, events: seq<Event>, e: Event)
    requires ValidConfig(cfg) && InheritedWindow(previousWindow)
    ensures Run(cfg, previousWindow, events + [e]) == Step(cfg, Run(cfg, previousWindow, events), e)
  {
    assert (events + [e])[..|events + [e]| - 1] == events;
  }

  // ---- what holds in every run ----

  /** In every run the known hashes are a prefix of the sender's, whole pages long; no handler raises;
      and the sender never meets a sequencing error. */
  lemma PagesInEveryRun(cfg: Config, previousWindow: Option<nat>, events: seq<Event>)
    requires ValidConfig(cfg) && InheritedWindow(previousWindow)
    ensures var s := Run(cfg, previousWindow, events); var n := |cfg.parts|;
            && 1 <= s.rcv.height <= n && (s.rcv.height == n || s.rcv.height % HASHMAP_MAX_LEN == 0)
            && |s.rcv.hashmap| == n
            && (forall i :: 0 <= i < s.rcv.height ==> s.rcv.hashmap[i] == Some(cfg.mapHash(cfg.parts[i])))
            && (forall i :: s.rcv.height <= i < n ==> s.rcv.hashmap[i] == None)
            && !s.sequencingError && !s.raised
  {
    RunInv(cfg, previousWindow, events);
  }

  /** Index i is the only one of the sender's search scope with hash h. */
  ghost predicate OnlyMatch(snd: Sender, i: int, h: MapHash)
    requires Consistent(snd)
  {
    && snd.minHeight <= i < ScopeEnd(snd)
    && forall j :: snd.minHeight <= j < ScopeEnd(snd) ==> (snd.hashes[j] == h <==> j == i)
  }

  /** Exactly the parts the request meant and, if asked for, exactly the page after the receiver's table. */
  ghost predicate AnsweredExactly(snd: Sender, e: UpPacket, resp: Response)
    requires Consistent(snd)
  {
    && resp.parts == e.meant && |e.req.wanted| == |e.meant|
    && (forall k :: 0 <= k < |e.meant| ==> OnlyMatch(snd, e.meant[k], e.req.wanted[k]))
    && (if e.req.exhausted then
          && e.t < |snd.hashes| && e.t % HASHMAP_MAX_LEN == 0
          && resp.page == Some(Page(e.t / HASHMAP_MAX_LEN, snd.hashes[e.t..Min(e.t + HASHMAP_MAX_LEN, |snd.hashes|)]))
        else resp.page == None)
  }

  lemma GuardedOnlyMatch(snd: Sender, i: int)
    requires Consistent(snd) && Guarded(snd.hashes) && snd.minHeight <= i < ScopeEnd(snd)
    ensures OnlyMatch(snd, i, snd.hashes[i])
  {
  }

  lemma InFlightAnswered(cfg: Config, snd: Sender, asked: nat, height: nat, completed: int, e: UpPacket)
    requires ValidConfig(cfg) && SenderOk(cfg, snd, asked) && InStep(asked, height, completed)
    requires UpOk(cfg, asked, height, completed, e) && !snd.status.Cancelled?
    ensures AnsweredExactly(snd, e, Serve(snd, e.req).1)
  {
    ResolvesAsMeant(cfg, snd, asked, height, completed, e);
    MeantOnly(cfg, snd, asked, height, completed, e);
    var resp := Serve(snd, e.req).1;
    assert resp.parts == e.meant;
    if e.req.exhausted {
      assert e.t % HASHMAP_MAX_LEN == 0 && e.t / HASHMAP_MAX_LEN * HASHMAP_MAX_LEN == e.t;
      assert resp.page == Some(PageOf(snd.hashes, e.t / HASHMAP_MAX_LEN));
    }
  }

  lemma MeantOnly(cfg: Config, snd: Sender, asked: nat, height: nat, completed: int, e: UpPacket)
    requires ValidConfig(cfg) && SenderOk(cfg, snd, asked) && UpOk(cfg, asked, height, completed, e)
    requires forall k :: 0 <= k < |e.meant| ==> snd.minHeight <= e.meant[k] < ScopeEnd(snd)
    ensures forall k :: 0 <= k < |e.meant| ==> OnlyMatch(snd, e.meant[k], e.req.wanted[k])
  {
    forall k | 0 <= k < |e.meant|
      ensures OnlyMatch(snd, e.meant[k], e.req.wanted[k])
    {
      GuardedOnlyMatch(snd, e.meant[k]);
    }
  }

  /** In every run a request that reaches a live sender is answered exactly. */
  lemma RequestsResolveInEveryRun(cfg: Config, previousWindow: Option<nat>, events: seq<Event>)
    requires ValidConfig(cfg) && InheritedWindow(previousWindow)
    ensures var s := Run(cfg, previousWindow, events);
            s.up != [] && !s.snd.status.Cancelled? ==> AnsweredExactly(s.snd, s.up[0], Serve(s.snd, s.up[0].req).1)
  {
    RunInv(cfg, previousWindow, events);
    var s := Run(cfg, previousWindow, events);
    if s.up != [] && !s.snd.status.Cancelled? {
      InFlightAnswered(cfg, s.snd, s.asked, s.rcv.height, s.rcv.completed, s.up[0]);
    }
  }

  /** In every run, whatever was lost, repeated or late, a filled slot holds the sender's part of that
      index, and what is assembled is the sender's sequence of parts. */
  lemma SlotsInEveryRun(cfg: Config, previousWindow: Option<nat>, events: seq<Event>)
    requires ValidConfig(cfg) && InheritedWindow(previousWindow)
    ensures var s := Run(cfg, previousWindow, events);
            && |s.rcv.parts| == |cfg.parts|
            && (forall i :: 0 <= i < |cfg.parts| && s.rcv.parts[i].Some? ==> s.rcv.parts[i] == Some(cfg.parts[i]))
            && (s.assembled.Some? ==> s.assembled.value == cfg.parts)
  {
    RunInv(cfg, previousWindow, events);
  }

  /** In every run the completed height is the end of the longest filled prefix, the received count is the
      number of filled slots, and assembly is only ever started with no slot empty. */
  lemma {:induction false} CountersInEveryRun(cfg: Config, previousWindow: Option<nat>, events: seq<Event>)
    requires ValidConfig(cfg) && InheritedWindow(previousWindow)
    ensures var s := Run(cfg, previousWindow, events); var r := s.rcv;
            && -1 <= r.completed < |r.parts|
            && (forall i :: 0 <= i <= r.completed ==> r.parts[i].Some?)
            && (r.completed + 1 < |r.parts| ==> r.parts[r.completed + 1].None?)
            && r.received == |set i | 0 <= i < |r.parts| && r.parts[i].Some?|
            && (r.assemblyLock ==> r.received == |cfg.parts|)
            && WINDOW_MIN <= r.windowMin <= r.window <= WINDOW_MAX_FAST
  {
    RunInv(cfg, previousWindow, events);
    AllFilled(Run(cfg, previousWindow, events).rcv.parts);
  }
}
