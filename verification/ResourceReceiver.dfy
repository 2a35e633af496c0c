/** The receiving side of a Resource transfer (reference/RNS/Resource.py): a window of
    part slots, a hash table filled page by page, and the requests it sends. */
module ResourceReceiver {
  import opened Prelude

  const WINDOW: nat := 4
  const WINDOW_MIN: nat := 2
  const WINDOW_MAX_SLOW: nat := 10
  const WINDOW_MAX_VERY_SLOW: nat := 4
  const WINDOW_MAX_FAST: nat := 75
  const WINDOW_FLEXIBILITY: nat := 4
  const FAST_RATE_THRESHOLD: nat := 4
  const VERY_SLOW_RATE_THRESHOLD: nat := 2
  const HASHMAP_MAX_LEN: nat := 74
  const MAX_RETRIES: nat := 16

  type MapHash = Bytes

  datatype Status = Transferring | Assembling | Complete | Failed | Corrupt

  /** A part request: `last` is the last known map hash, meaningful when `exhausted`. */
  datatype Request = Request(exhausted: bool, last: MapHash, wanted: seq<MapHash>)

  /** What a handler did with the link: nothing, one request, or an exception. */
  datatype Output = Silent | Ask(req: Request) | Raised

  /** What the clock showed while a part was handled; only the comparisons matter. */
  datatype Observation = Observation(
    rttPositive: bool, responseFast: bool, roundTimed: bool, roundFast: bool, roundVerySlow: bool)

  datatype State = State(
    status: Status,
    parts: seq<Option<Bytes>>,
    hashmap: seq<Option<MapHash>>,
    height: nat,
    completed: int,          // consecutive_completed_height
    received: nat,
    outstanding: int,
    waiting: bool,           // waiting_for_hmu
    window: nat,
    windowMax: nat,
    windowMin: nat,
    retries: nat,
    fastRounds: nat,
    slowRounds: nat,
    awaitingResponse: bool,  // req_resp is None
    assemblyLock: bool)

  /** Index of the first empty slot at or after `from`. */
  function FirstMissing(parts: seq<Option<Bytes>>, from: nat): (k: nat)
    requires from <= |parts|
    ensures from <= k <= |parts|
    ensures forall i :: from <= i < k ==> parts[i].Some?
    ensures k < |parts| ==> parts[k].None?
    decreases |parts| - from
  {
    if from < |parts| && parts[from].Some? then FirstMissing(parts, from + 1) else from
  }

  function FilledSet(parts: seq<Option<Bytes>>): set<int> {
    set i | 0 <= i < |parts| && parts[i].Some?
  }

  function KnownSet(hashmap: seq<Option<MapHash>>): set<int> {
    set i | 0 <= i < |hashmap| && hashmap[i].Some?
  }

  /** The slots after a part with map hash `ph` arrived while slots [lo, hi) were open. */
  function Store(parts: seq<Option<Bytes>>, hashmap: seq<Option<MapHash>>, lo: nat, hi: nat, ph: MapHash, data: Bytes)
    : (s: seq<Option<Bytes>>)
    requires |hashmap| == |parts|
    ensures |s| == |parts|
  {
    seq(|parts|, i requires 0 <= i < |parts| =>
      if lo <= i < hi && parts[i].None? && hashmap[i] == Some(ph) then Some(data) else parts[i])
  }

  /** The hash table after page entries starting at `base` were written. */
  function Put(hashmap: seq<Option<MapHash>>, base: nat, hashes: seq<MapHash>): (s: seq<Option<MapHash>>)
    ensures |s| == |hashmap|
  {
    seq(|hashmap|, i requires 0 <= i < |hashmap| =>
      if base <= i < base + |hashes| then Some(hashes[i - base]) else hashmap[i])
  }

  /** The empty slots of [lo, hi), in ascending order. */
  function Missing(parts: seq<Option<Bytes>>, lo: nat, hi: nat): (m: seq<int>)
    requires lo <= hi <= |parts|
    ensures forall k :: 0 <= k < |m| ==> lo <= m[k] < hi && parts[m[k]].None?
  {
    if lo == hi then []
    else if parts[hi - 1].None? then Missing(parts, lo, hi - 1) + [hi - 1]
    else Missing(parts, lo, hi - 1)
  }

  lemma {:induction false} MissingAscending(parts: seq<Option<Bytes>>, lo: nat, hi: nat)
    requires lo <= hi <= |parts|
    ensures Ascending(Missing(parts, lo, hi))
  {
    if lo < hi {
      MissingAscending(parts, lo, hi - 1);
    }
  }

  lemma {:induction false} MissingFirst(parts: seq<Option<Bytes>>, lo: nat, hi: nat)
    requires lo < hi <= |parts| && parts[lo].None?
    ensures |Missing(parts, lo, hi)| > 0 && Missing(parts, lo, hi)[0] == lo
  {
    if lo + 1 < hi {
      MissingFirst(parts, lo, hi - 1);
    }
  }

  /** The first slot of [lo, hi) that is empty and whose hash is unknown; hi if there is none. */
  function StopAt(parts: seq<Option<Bytes>>, hashmap: seq<Option<MapHash>>, lo: nat, hi: nat): (k: nat)
    requires lo <= hi <= |parts| == |hashmap|
    ensures lo <= k <= hi
    ensures forall i :: lo <= i < k ==> parts[i].Some? || hashmap[i].Some?
    ensures k < hi ==> parts[k].None? && hashmap[k].None?
    decreases hi - lo
  {
    if lo == hi || (parts[lo].None? && hashmap[lo].None?) then lo else StopAt(parts, hashmap, lo + 1, hi)
  }

  function HashesAt(hashmap: seq<Option<MapHash>>, idx: seq<int>): (h: seq<MapHash>)
    requires forall k :: 0 <= k < |idx| ==> 0 <= idx[k] < |hashmap| && hashmap[idx[k]].Some?
    ensures |h| == |idx|
    ensures forall k :: 0 <= k < |idx| ==> h[k] == hashmap[idx[k]].value
  {
    seq(|idx|, k requires 0 <= k < |idx| => hashmap[idx[k]].value)
  }

  ghost predicate WindowBounds(windowMin: nat, window: nat, windowMax: nat) {
    WINDOW_MIN <= windowMin <= window <= WINDOW_MAX_FAST && windowMax <= WINDOW_MAX_FAST
  }

  /** The counters say exactly what the tables hold. */
  ghost predicate Exact(parts: seq<Option<Bytes>>, hashmap: seq<Option<MapHash>>, height: nat, completed: int, received: nat) {
    && |hashmap| == |parts|
    && completed == FirstMissing(parts, 0) - 1
    && received == |FilledSet(parts)|
    && height == |KnownSet(hashmap)|
  }

  /** What every handler keeps. */
  ghost predicate WellFormed(r: State) {
    && Exact(r.parts, r.hashmap, r.height, r.completed, r.received)
    && WindowBounds(r.windowMin, r.window, r.windowMax)
    && (r.assemblyLock ==> r.completed == |r.parts| - 1)
  }

  /** Resource.accept: an empty table; the window of the previous resource on the link is inherited. */
  function Fresh(n: nat, previousWindow: Option<nat>): (r: State) {
    State(Transferring, seq(n, i => None), seq(n, i => None), 0, -1, 0, 0, false,
          if previousWindow.Some? && previousWindow.value != 0 then previousWindow.value else WINDOW,
          WINDOW_MAX_SLOW, WINDOW_MIN, MAX_RETRIES, 0, 0, false, false)
  }

  /** One past the search window of the next request. */
  function WindowEnd(r: State): int {
    Min(r.completed + 1 + r.window, |r.parts|)
  }

  function RequestStop(r: State): (k: nat)
    requires |r.hashmap| == |r.parts| && -1 <= r.completed < |r.parts|
    ensures r.completed < k <= WindowEnd(r)
  {
    StopAt(r.parts, r.hashmap, r.completed + 1, WindowEnd(r))
  }

  /** The parts the next request asks for. */
  function RequestIndices(r: State): (w: seq<int>)
    requires |r.hashmap| == |r.parts| && -1 <= r.completed < |r.parts|
    ensures forall k :: 0 <= k < |w| ==> r.completed < w[k] < RequestStop(r) && r.parts[w[k]].None? && r.hashmap[w[k]].Some?
  {
    Missing(r.parts, r.completed + 1, RequestStop(r))
  }

  /** Some empty slot of the window has an unknown hash. */
  predicate RequestExhausted(r: State)
    requires |r.hashmap| == |r.parts| && -1 <= r.completed < |r.parts|
  {
    RequestStop(r) < WindowEnd(r)
  }

  /** The entry named by a page request; Python's index -1 is the last entry of the table. */
  function LastIndex(r: State): int {
    if r.height > 0 then r.height - 1 else |r.parts| - 1
  }

  /** A None entry there raises. */
  predicate Raises(r: State)
    requires |r.hashmap| == |r.parts| && -1 <= r.completed < |r.parts| && r.height <= |r.parts|
  {
    RequestExhausted(r) && r.hashmap[LastIndex(r)].None?
  }

  function AskFor(r: State): (req: Request)
    requires |r.hashmap| == |r.parts| && -1 <= r.completed < |r.parts| && r.height <= |r.parts| && !Raises(r)
  {
    Request(RequestExhausted(r), if RequestExhausted(r) then r.hashmap[LastIndex(r)].value else [],
            HashesAt(r.hashmap, RequestIndices(r)))
  }

  /** request_next */
  function RequestNext(r: State): (o: (State, Output))
    requires |r.hashmap| == |r.parts| && -1 <= r.completed < |r.parts| && r.height <= |r.parts|
  {
    if r.status.Failed? || r.waiting then (r, Silent)
    else if Raises(r) then (r.(outstanding := |RequestIndices(r)|), Raised)
    else (r.(outstanding := |RequestIndices(r)|, waiting := RequestExhausted(r), awaitingResponse := true), Ask(AskFor(r)))
  }

  /** hashmap_update: write the page, then ask again. A page past the end raises. */
  function HashmapUpdate(r: State, segment: nat, hashes: seq<MapHash>): (o: (State, Output))
    requires |r.hashmap| == |r.parts| && -1 <= r.completed < |r.parts|
  {
    if r.status.Failed? then (r, Silent)
    else
      var base := segment * HASHMAP_MAX_LEN;
      var hm := Put(r.hashmap, base, hashes);
      KnownSize(hm);
      var r1 := r.(status := Transferring, hashmap := hm, height := |KnownSet(hm)|);
      if hashes != [] && base + |hashes| > |r.parts| then (r1, Raised)
      else RequestNext(r1.(waiting := false))
  }

  lemma KnownSize(hashmap: seq<Option<MapHash>>)
    ensures |KnownSet(hashmap)| <= |hashmap|
  {
    SubsetSize(KnownSet(hashmap), Range(|hashmap|));
    RangeSize(|hashmap|);
  }

  /** Only the window and rate counters may differ. */
  ghost predicate SameTransfer(r: State, s: State) {
    s == r.(window := s.window, windowMin := s.windowMin, windowMax := s.windowMax,
            fastRounds := s.fastRounds, slowRounds := s.slowRounds)
  }

  function NoteFast(r: State): (s: State)
    ensures SameTransfer(r, s) && s.window == r.window && s.windowMin == r.windowMin
    ensures s.windowMax == r.windowMax || s.windowMax == WINDOW_MAX_FAST
  {
    if r.fastRounds < FAST_RATE_THRESHOLD then
      var s := r.(fastRounds := r.fastRounds + 1);
      if s.fastRounds == FAST_RATE_THRESHOLD then s.(windowMax := WINDOW_MAX_FAST) else s
    else r
  }

  function NoteVerySlow(r: State): (s: State)
    ensures SameTransfer(r, s) && s.window == r.window && s.windowMin == r.windowMin
    ensures s.windowMax == r.windowMax || s.windowMax == WINDOW_MAX_VERY_SLOW
  {
    if r.fastRounds == 0 && r.slowRounds < VERY_SLOW_RATE_THRESHOLD then
      var s := r.(slowRounds := r.slowRounds + 1);
      if s.slowRounds == VERY_SLOW_RATE_THRESHOLD then s.(windowMax := WINDOW_MAX_VERY_SLOW) else s
    else r
  }

  /** Bookkeeping on the first part after a request. */
  function NoteResponse(r: State, obs: Observation): (s: State)
    ensures SameTransfer(r.(retries := MAX_RETRIES, awaitingResponse := false), s)
    ensures WindowBounds(r.windowMin, r.window, r.windowMax) ==> WindowBounds(s.windowMin, s.window, s.windowMax)
  {
    var s := r.(retries := MAX_RETRIES, awaitingResponse := false);
    if r.awaitingResponse && obs.rttPositive && obs.responseFast then NoteFast(s) else s
  }

  function GrowWindow(r: State): (s: State)
    requires WindowBounds(r.windowMin, r.window, r.windowMax)
    ensures SameTransfer(r, s) && WindowBounds(s.windowMin, s.window, s.windowMax)
  {
    if r.window < r.windowMax then
      var s := r.(window := r.window + 1);
      if s.window - s.windowMin > WINDOW_FLEXIBILITY - 1 then s.(windowMin := s.windowMin + 1) else s
    else r
  }

  /** The end of a request round: the window grows and the rate limits are revised. */
  function EndRound(r: State, obs: Observation): (s: State)
    requires WindowBounds(r.windowMin, r.window, r.windowMax)
    ensures SameTransfer(r, s) && WindowBounds(s.windowMin, s.window, s.windowMax)
  {
    var s := GrowWindow(r);
    if !obs.roundTimed then s
    else
      var s1 := if obs.roundFast then NoteFast(s) else s;
      if obs.roundVerySlow then NoteVerySlow(s1) else s1
  }

  /** The slots after receive_part, and the counters they determine. */
  function Filled(r: State, data: Bytes, ph: MapHash): (s: State)
    requires |r.hashmap| == |r.parts|
  {
    var lo := Max(r.completed, 0);
    var parts := Store(r.parts, r.hashmap, lo, lo + r.window, ph, data);
    r.(status := Transferring, parts := parts,
       completed := FirstMissing(parts, 0) - 1,
       received := |FilledSet(parts)|,
       outstanding := r.outstanding - (|FilledSet(parts)| - |FilledSet(r.parts)|))
  }

  /** The end of receive_part: assemble, or start the next round. The flag says that assembly was started. */
  function AfterFill(r: State, obs: Observation): (o: (State, Output, bool))
    requires WellFormed(r)
  {
    if r.received == |r.parts| && !r.assemblyLock then (r.(assemblyLock := true), Silent, true)
    else if r.outstanding == 0 then
      var s := EndRound(r, obs);
      KnownSize(s.hashmap);
      var n := RequestNext(s);
      (n.0, n.1, false)
    else (r, Silent, false)
  }

  /** receive_part */
  function ReceivePart(r: State, data: Bytes, ph: MapHash, obs: Observation): (o: (State, Output, bool))
    requires WellFormed(r)
  {
    var r0 := NoteResponse(r, obs);
    if r.status.Failed? then (r0, Silent, false)
    else
      FilledKeeps(r0, data, ph);
      AfterFill(Filled(r0, data, ph), obs)
  }

  /** cancel */
  function Cancel(r: State): (s: State) {
    if r.status.Corrupt? || r.status.Complete? || r.status.Failed? then r else r.(status := Failed)
  }

  function ShrinkWindow(r: State): (s: State)
    requires WindowBounds(r.windowMin, r.window, r.windowMax)
    ensures SameTransfer(r, s) && WindowBounds(s.windowMin, s.window, s.windowMax)
  {
    if r.window > r.windowMin then
      var s := r.(window := r.window - 1);
      if s.windowMax > s.windowMin then
        var t := s.(windowMax := s.windowMax - 1);
        if t.windowMax - t.window > WINDOW_FLEXIBILITY - 1 then t.(windowMax := t.windowMax - 1) else t
      else s
    else r
  }

  /** The receiver as it retries after a timeout. */
  function Retrying(r: State): (s: State)
    requires WindowBounds(r.windowMin, r.window, r.windowMax) && r.retries > 0
  {
    ShrinkWindow(r).(retries := r.retries - 1, waiting := false)
  }

  lemma RetryingKeeps(r: State)
    requires WellFormed(r) && r.retries > 0
    ensures WellFormed(Retrying(r)) && Retrying(r).height <= |Retrying(r).parts|
  {
    KnownSize(r.hashmap);
    WindowsKeep(r, ShrinkWindow(r));
  }

  /** The watchdog found the receiver waiting too long. */
  function Timeout(r: State): (o: (State, Output))
    requires WellFormed(r)
  {
    if !r.status.Transferring? then (r, Silent)
    else if r.retries == 0 then (Cancel(r), Silent)
    else
      RetryingKeeps(r);
      RequestNext(Retrying(r))
  }

  // ---- what every handler keeps ----

  lemma WindowsKeep(r: State, s: State)
    requires WellFormed(r) && SameTransfer(r, s) && WindowBounds(s.windowMin, s.window, s.windowMax)
    ensures WellFormed(s)
  {
  }

  lemma AllFilled(parts: seq<Option<Bytes>>)
    ensures |FilledSet(parts)| == |parts| <==> FirstMissing(parts, 0) == |parts|
    ensures |FilledSet(parts)| <= |parts|
  {
    RangeSize(|parts|);
    SubsetSize(FilledSet(parts), Range(|parts|));
    var k := FirstMissing(parts, 0);
    if k == |parts| {
      assert FilledSet(parts) == Range(|parts|);
    } else {
      assert k !in FilledSet(parts) && k in Range(|parts|);
    }
  }

  /** A fresh receiver's counters agree with its empty tables. */
  lemma FreshKeeps(n: nat, previousWindow: Option<nat>)
    requires previousWindow.Some? ==> WINDOW_MIN <= previousWindow.value <= WINDOW_MAX_FAST
    ensures WellFormed(Fresh(n, previousWindow))
  {
    var r := Fresh(n, previousWindow);
    assert FilledSet(r.parts) == {} && KnownSet(r.hashmap) == {};
  }

  /** A request leaves the tables alone. */
  lemma RequestNextKeeps(r: State)
    requires WellFormed(r) && r.height <= |r.parts|
    ensures WellFormed(RequestNext(r).0)
    ensures var (s, o) := RequestNext(r);
            s == r.(outstanding := s.outstanding, waiting := s.waiting, awaitingResponse := s.awaitingResponse)
  {
  }

  /** A request asks for the first missing part, or for its page where the hash is unknown. */
  lemma RequestNextAsks(r: State)
    requires WellFormed(r) && r.height <= |r.parts|
    ensures var (s, o) := RequestNext(r);
            o.Ask? && r.completed + 1 < |r.parts| ==>
              if r.hashmap[r.completed + 1].Some? then |o.req.wanted| > 0 && Some(o.req.wanted[0]) == r.hashmap[r.completed + 1]
              else o.req.exhausted
  {
    if r.completed + 1 < |r.parts| && r.hashmap[r.completed + 1].Some? {
      MissingFirst(r.parts, r.completed + 1, RequestStop(r));
    }
  }

  lemma HashmapUpdateKeeps(r: State, segment: nat, hashes: seq<MapHash>)
    requires WellFormed(r)
    ensures WellFormed(HashmapUpdate(r, segment, hashes).0)
    ensures HashmapUpdate(r, segment, hashes).0.assemblyLock == r.assemblyLock
  {
    if !r.status.Failed? {
      var base := segment * HASHMAP_MAX_LEN;
      var hm := Put(r.hashmap, base, hashes);
      KnownSize(hm);
      var r1 := r.(status := Transferring, hashmap := hm, height := |KnownSet(hm)|);
      if hashes == [] || base + |hashes| <= |r.parts| {
        RequestNextKeeps(r1.(waiting := false));
      }
    }
  }

  /** Filling slot ranges one after the other fills their union. */
  lemma StoreSplit(parts: seq<Option<Bytes>>, hashmap: seq<Option<MapHash>>, lo: nat, mid: nat, ph: MapHash, data: Bytes)
    requires |hashmap| == |parts| && lo <= mid
    ensures Store(Store(parts, hashmap, lo, mid, ph, data), hashmap, mid, mid + 1, ph, data)
         == Store(parts, hashmap, lo, mid + 1, ph, data)
  {
  }

  /** The empty range fills nothing, and slots past the end do not exist. */
  lemma StoreEnds(parts: seq<Option<Bytes>>, hashmap: seq<Option<MapHash>>, lo: nat, hi: nat, ph: MapHash, data: Bytes)
    requires |hashmap| == |parts|
    ensures Store(parts, hashmap, lo, lo, ph, data) == parts
    ensures forall end :: hi >= end >= |parts| ==> Store(parts, hashmap, lo, end, ph, data) == Store(parts, hashmap, lo, hi, ph, data)
  {
  }

  lemma FilledIs(r: State, s: State, data: Bytes, ph: MapHash)
    requires Exact(r.parts, r.hashmap, r.height, r.completed, r.received)
    requires Exact(s.parts, r.hashmap, r.height, s.completed, s.received)
    requires s.parts == Store(r.parts, r.hashmap, Max(r.completed, 0), Max(r.completed, 0) + r.window, ph, data)
    requires s == r.(status := Transferring, parts := s.parts, completed := s.completed, received := s.received,
                     outstanding := r.outstanding - (s.received - r.received))
    ensures s == Filled(r, data, ph)
  {
  }

  /** The slots only fill up, and the longest filled prefix only grows. */
  lemma FilledKeeps(r: State, data: Bytes, ph: MapHash)
    requires WellFormed(r) && !r.status.Failed?
    ensures var s := Filled(r, data, ph);
            && WellFormed(s) && s.completed >= r.completed
            && (forall i :: 0 <= i < |r.parts| && r.parts[i].Some? ==> s.parts[i] == r.parts[i])
            && FilledSet(r.parts) <= FilledSet(s.parts)
  {
    var s := Filled(r, data, ph);
    assert |s.parts| == |r.parts|;
    assert forall i :: 0 <= i < |r.parts| && r.parts[i].Some? ==> s.parts[i] == r.parts[i];
    var k := FirstMissing(s.parts, 0);
    assert k >= FirstMissing(r.parts, 0);
  }

  lemma AfterFillKeeps(r: State, obs: Observation)
    requires WellFormed(r)
    ensures var (s, o, start) := AfterFill(r, obs);
            && WellFormed(s) && s.completed == r.completed && s.parts == r.parts && s.hashmap == r.hashmap
            && (start ==> !r.assemblyLock && s.assemblyLock && forall i :: 0 <= i < |s.parts| ==> s.parts[i].Some?)
            && (!start ==> s.assemblyLock == r.assemblyLock)
  {
    AllFilled(r.parts);
    if !(r.received == |r.parts| && !r.assemblyLock) && r.outstanding == 0 {
      KnownSize(r.hashmap);
      RequestNextKeeps(EndRound(r, obs));
    }
  }

  /** receive_part keeps every counter exact, and starts assembly at most once and only when no slot is empty. */
  lemma ReceivePartKeeps(r: State, data: Bytes, ph: MapHash, obs: Observation)
    requires WellFormed(r)
    ensures WellFormed(ReceivePart(r, data, ph, obs).0)
    ensures var (s, o, start) := ReceivePart(r, data, ph, obs);
            && s.completed >= r.completed && s.hashmap == r.hashmap
            && (start ==> !r.assemblyLock && s.assemblyLock && forall i :: 0 <= i < |s.parts| ==> s.parts[i].Some?)
            && (!start ==> s.assemblyLock == r.assemblyLock)
  {
    if !r.status.Failed? {
      var r0 := NoteResponse(r, obs);
      FilledKeeps(r0, data, ph);
      AfterFillKeeps(Filled(r0, data, ph), obs);
    }
  }

  lemma TimeoutKeeps(r: State)
    requires WellFormed(r)
    ensures WellFormed(Timeout(r).0)
    ensures Timeout(r).0.completed == r.completed && Timeout(r).0.assemblyLock == r.assemblyLock
  {
    if r.status.Transferring? && r.retries > 0 {
      RetryingKeeps(r);
      RequestNextKeeps(Retrying(r));
    }
  }

  // ---- the requested range and the accepted range ----

  /** A missing part with a known, unique hash is stored on arrival exactly when its index lies
      in the accepted range, which starts at the last completed part. */
  lemma StoredIff(r: State, i: nat, data: Bytes, ph: MapHash)
    requires WellFormed(r) && !r.status.Failed?
    requires i < |r.parts| && r.parts[i].None? && r.hashmap[i] == Some(ph)
    ensures Filled(r, data, ph).parts[i] == Some(data) <==> i < Max(r.completed, 0) + r.window
    ensures r.completed >= 0 && i in RequestIndices(r) ==>
              (Filled(r, data, ph).parts[i] == Some(data) <==> i != r.completed + r.window)
  {
    assert i > r.completed;
  }

  /** The first missing part is always accepted, and its arrival advances the completed prefix. */
  lemma FirstMissingAdvances(r: State, data: Bytes, ph: MapHash)
    requires WellFormed(r) && !r.status.Failed?
    requires r.completed + 1 < |r.parts| && r.hashmap[r.completed + 1] == Some(ph)
    ensures Filled(r, data, ph).completed >= r.completed + 1
  {
    StoredIff(r, r.completed + 1, data, ph);
    var s := Filled(r, data, ph);
    var k := FirstMissing(s.parts, 0);
    FilledKeeps(r, data, ph);
    assert k != r.completed + 1;
  }
}
