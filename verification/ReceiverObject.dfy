/** The receiving Resource as an object with fields updated in place; each method is proved
    equal to the function of the same name in ResourceReceiver. */
module ReceiverObject {
  import opened Prelude
  import opened ResourceReceiver
  import Spec = ResourceReceiver

  /** One more entry of a page written. */
  lemma EntryPut(table: seq<Option<MapHash>>, base: nat, hashes: seq<MapHash>, i: nat)
    requires i < |hashes| && base + i < |table|
    ensures Put(table, base, hashes[..i])[base + i := Some(hashes[i])] == Put(table, base, hashes[..i + 1])
  {
    var before, after := Put(table, base, hashes[..i])[base + i := Some(hashes[i])], Put(table, base, hashes[..i + 1]);
    forall k | 0 <= k < |table|
      ensures before[k] == after[k]
    {
    }
  }

  lemma EntryKnown(hashmap: seq<Option<MapHash>>, at: nat, hash: MapHash)
    requires at < |hashmap|
    ensures |KnownSet(hashmap[at := Some(hash)])| == |KnownSet(hashmap)| + if hashmap[at].None? then 1 else 0
  {
    var known := KnownSet(hashmap[at := Some(hash)]);
    if hashmap[at].None? {
      assert known == KnownSet(hashmap) + {at};
    } else {
      assert known == KnownSet(hashmap);
    }
  }

  /** The whole page is written, or as much of it as the table has room for. */
  lemma PagePut(table: seq<Option<MapHash>>, base: nat, hashes: seq<MapHash>, i: nat)
    requires i <= |hashes| && (i == |hashes| || base + i >= |table|)
    ensures Put(table, base, hashes[..i]) == Put(table, base, hashes)
  {
    var some, all := Put(table, base, hashes[..i]), Put(table, base, hashes);
    forall k | 0 <= k < |table|
      ensures some[k] == all[k]
    {
    }
  }

  /** The known hashes of the empty slots of [lo, hi). */
  function Wants(parts: seq<Option<Bytes>>, hashmap: seq<Option<MapHash>>, lo: nat, hi: nat): seq<MapHash>
    requires lo <= hi <= |parts| == |hashmap|
  {
    if lo == hi then []
    else if parts[hi - 1].None? && hashmap[hi - 1].Some? then Wants(parts, hashmap, lo, hi - 1) + [hashmap[hi - 1].value]
    else Wants(parts, hashmap, lo, hi - 1)
  }

  lemma {:induction false} WantsAre(parts: seq<Option<Bytes>>, hashmap: seq<Option<MapHash>>, lo: nat, hi: nat)
    requires lo <= hi <= |parts| == |hashmap|
    requires forall i :: lo <= i < hi ==> parts[i].Some? || hashmap[i].Some?
    ensures var w, m := Wants(parts, hashmap, lo, hi), Missing(parts, lo, hi);
            |w| == |m| && forall k :: 0 <= k < |m| ==> Some(w[k]) == hashmap[m[k]]
  {
    if lo < hi {
      WantsAre(parts, hashmap, lo, hi - 1);
      var w0, m0 := Wants(parts, hashmap, lo, hi - 1), Missing(parts, lo, hi - 1);
      if parts[hi - 1].None? {
        var w, m := w0 + [hashmap[hi - 1].value], m0 + [hi - 1];
        forall k | 0 <= k < |m|
          ensures Some(w[k]) == hashmap[m[k]]
        {
          assert k < |m0| ==> w[k] == w0[k] && m[k] == m0[k];
        }
      }
    }
  }

  class Receiver {
    const mapHash: Bytes -> MapHash
    var status: Status
    var parts: seq<Option<Bytes>>
    var hashmap: seq<Option<MapHash>>
    var height: nat
    var completed: int
    var received: nat
    var outstanding: int
    var waiting: bool
    var window: nat
    var windowMax: nat
    var windowMin: nat
    var retries: nat
    var fastRounds: nat
    var slowRounds: nat
    var awaitingResponse: bool
    var assemblyLock: bool

    ghost function View(): State
      reads this
    {
      State(status, parts, hashmap, height, completed, received, outstanding, waiting, window, windowMax,
            windowMin, retries, fastRounds, slowRounds, awaitingResponse, assemblyLock)
    }

    ghost predicate Valid()
      reads this
    {
      WellFormed(View())
    }

    constructor (totalParts: nat, previousWindow: Option<nat>, mapHash: Bytes -> MapHash)
      requires previousWindow.Some? ==> WINDOW_MIN <= previousWindow.value <= WINDOW_MAX_FAST
      ensures Valid() && View() == Fresh(totalParts, previousWindow)
      ensures this.mapHash == mapHash
    {
      this.mapHash := mapHash;
      status := Transferring;
      parts := seq(totalParts, i => None);
      hashmap := seq(totalParts, i => None);
      height, completed, received, outstanding := 0, -1, 0, 0;
      waiting, awaitingResponse, assemblyLock := false, false, false;
      window, windowMax, windowMin := WINDOW, WINDOW_MAX_SLOW, WINDOW_MIN;
      retries, fastRounds, slowRounds := MAX_RETRIES, 0, 0;
      if previousWindow.Some? && previousWindow.value != 0 {
        window := previousWindow.value;
      }
      new;
      FreshKeeps(totalParts, previousWindow);
    }

    /** The loop of request_next over the search window. */
    static method Scan(parts: seq<Option<Bytes>>, hashmap: seq<Option<MapHash>>, start: nat, end: nat, window: nat)
      returns (wanted: seq<MapHash>, count: nat, exhausted: bool)
      requires start <= end <= |parts| == |hashmap| && end - start <= window
      ensures exhausted <==> StopAt(parts, hashmap, start, end) < end
      ensures var m := Missing(parts, start, StopAt(parts, hashmap, start, end));
              count == |m| == |wanted| && forall k :: 0 <= k < count ==> Some(wanted[k]) == hashmap[m[k]]
    {
      wanted, count, exhausted := [], 0, false;
      var pn := start;
      while pn < end && !(count >= window || exhausted)
        invariant start <= pn <= end
        invariant exhausted ==> start < pn && StopAt(parts, hashmap, start, end) == pn - 1
        invariant !exhausted ==> StopAt(parts, hashmap, start, end) == StopAt(parts, hashmap, pn, end)
        invariant wanted == Wants(parts, hashmap, start, if exhausted then pn - 1 else pn)
        invariant count == |wanted| <= pn - start
        decreases end - pn
      {
        if parts[pn].None? {
          var hash := hashmap[pn];
          if hash.Some? {
            wanted := wanted + [hash.value];
            count := count + 1;
          } else {
            exhausted := true;
          }
        }
        pn := pn + 1;
      }
      WantsAre(parts, hashmap, start, StopAt(parts, hashmap, start, end));
    }

    method RequestNext() returns (o: Output)
      requires Valid()
      modifies this`outstanding, this`waiting, this`awaitingResponse
      ensures Valid()
      ensures height <= |parts| && (View(), o) == Spec.RequestNext(old(View()))
    {
      KnownSize(hashmap);
      o := Silent;
      if !status.Failed? && !waiting {
        o := SendRequest();
      }
    }

    method SendRequest() returns (o: Output)
      requires Valid() && height <= |parts| && !status.Failed? && !waiting
      modifies this`outstanding, this`waiting, this`awaitingResponse
      ensures (View(), o) == Spec.RequestNext(old(View()))
    {
      var count, exhausted;
      count, exhausted, o := ComposeRequest();
      outstanding := count;
      if !o.Raised? {
        waiting, awaitingResponse := exhausted, true;
      }
    }

    method ComposeRequest() returns (count: nat, exhausted: bool, o: Output)
      requires |hashmap| == |parts| && -1 <= completed < |parts| && height <= |parts|
      ensures count == |RequestIndices(View())| && exhausted == RequestExhausted(View())
      ensures o == if Raises(View()) then Raised else Ask(AskFor(View()))
    {
      ghost var r := View();
      var wanted;
      wanted, count, exhausted := Scan(parts, hashmap, completed + 1, Min(completed + 1 + window, |parts|), window);
      assert wanted == HashesAt(r.hashmap, RequestIndices(r));
      if exhausted {
        var lastIndex := if height > 0 then height - 1 else |parts| - 1;
        if hashmap[lastIndex].None? {
          o := Raised;
        } else {
          o := Ask(Request(true, hashmap[lastIndex].value, wanted));
        }
      } else {
        o := Ask(Request(false, [], wanted));
      }
    }

    /** The loop of hashmap_update; an index past the end of the list raises. */
    method WritePage(base: nat, hashes: seq<MapHash>) returns (raised: bool)
      requires height == |KnownSet(hashmap)|
      modifies this`hashmap, this`height
      ensures hashmap == Put(old(hashmap), base, hashes)
      ensures height == |KnownSet(hashmap)|
      ensures raised <==> hashes != [] && base + |hashes| > |hashmap|
    {
      ghost var table := hashmap;
      var i := 0;
      while i < |hashes|
        invariant 0 <= i <= |hashes|
        invariant i > 0 ==> base + i <= |hashmap|
        invariant |hashmap| == |table|
        invariant hashmap == Put(table, base, hashes[..i])
        invariant height == |KnownSet(hashmap)|
      {
        if base + i >= |hashmap| {
          PagePut(table, base, hashes, i);
          return true;
        }
        EntryPut(table, base, hashes, i);
        EntryKnown(hashmap, base + i, hashes[i]);
        if hashmap[base + i].None? {
          height := height + 1;
        }
        hashmap := hashmap[base + i := Some(hashes[i])];
        i := i + 1;
      }
      PagePut(table, base, hashes, i);
      raised := false;
    }

    method HashmapUpdate(segment: nat, hashes: seq<MapHash>) returns (o: Output)
      requires Valid()
      modifies this
      ensures Valid()
      ensures (View(), o) == Spec.HashmapUpdate(old(View()), segment, hashes)
    {
      o := Silent;
      if !status.Failed? {
        status := Transferring;
        var raised := WritePage(segment * HASHMAP_MAX_LEN, hashes);
        if raised {
          return Raised;
        }
        waiting := false;
        o := RequestNext();
      }
    }

    /** Store the part in every open slot that asks for it. */
    method Fill(data: Bytes)
      requires Valid() && !status.Failed?
      modifies this`status, this`parts, this`completed, this`received, this`outstanding
      ensures View() == Filled(old(View()), data, mapHash(data))
    {
      ghost var r := View();
      status := Transferring;
      FillWindow(if completed >= 0 then completed else 0, mapHash(data), data);
      FilledIs(r, View(), data, mapHash(data));
    }

    method FillWindow(lo: nat, partHash: MapHash, data: Bytes)
      requires Exact(parts, hashmap, height, completed, received)
      modifies this`parts, this`completed, this`received, this`outstanding
      ensures Exact(parts, hashmap, height, completed, received)
      ensures parts == Store(old(parts), hashmap, lo, lo + window, partHash, data)
      ensures outstanding == old(outstanding) - (received - old(received))
    {
      ghost var slots := parts;
      var i := lo;
      StoreEnds(slots, hashmap, lo, lo + window, partHash, data);
      while i < lo + window && i < |hashmap|
        invariant lo <= i <= lo + window
        invariant Exact(parts, hashmap, height, completed, received)
        invariant |slots| == |hashmap| && parts == Store(slots, hashmap, lo, i, partHash, data)
        invariant outstanding == old(outstanding) - (received - old(received))
      {
        FillSlot(i, partHash, data);
        StoreSplit(slots, hashmap, lo, i, partHash, data);
        i := i + 1;
      }
    }

    method FillSlot(i: nat, partHash: MapHash, data: Bytes)
      requires Exact(parts, hashmap, height, completed, received) && i < |parts|
      modifies this`parts, this`completed, this`received, this`outstanding
      ensures Exact(parts, hashmap, height, completed, received)
      ensures parts == Store(old(parts), hashmap, i, i + 1, partHash, data)
      ensures outstanding == old(outstanding) - (received - old(received))
    {
      ghost var was := parts;
      if hashmap[i] == Some(partHash) && parts[i].None? {
        ghost var filled := FilledSet(parts);
        parts := parts[i := Some(data)];
        assert FilledSet(parts) == filled + {i};
        received := received + 1;
        outstanding := outstanding - 1;
        AdvancePrefix(i, was);
      }
      assert parts == Store(was, hashmap, i, i + 1, partHash, data);
    }

    /** Update the completed height after slot i was filled. */
    method AdvancePrefix(i: nat, ghost was: seq<Option<Bytes>>)
      requires i < |was| == |parts| && was[i].None? && parts == was[i := parts[i]] && parts[i].Some?
      requires completed == FirstMissing(was, 0) - 1
      modifies this`completed
      ensures completed == FirstMissing(parts, 0) - 1
    {
      if i == completed + 1 {
        completed := i;
      }
      var cp := completed + 1;
      while cp < |parts| && parts[cp].Some?
        invariant completed == cp - 1 && 0 <= cp <= |parts|
        invariant forall k :: 0 <= k < cp ==> parts[k].Some?
        decreases |parts| - cp
      {
        completed := cp;
        cp := cp + 1;
      }
      assert FirstMissing(parts, 0) == cp;
    }

    method ReceivePart(data: Bytes, obs: Observation) returns (o: Output, assemble: bool)
      requires Valid()
      modifies this
      ensures Valid()
      ensures (View(), o, assemble) == Spec.ReceivePart(old(View()), data, mapHash(data), obs)
    {
      o, assemble := Silent, false;
      MeasureResponse(obs);
      if !status.Failed? {
        FilledKeeps(View(), data, mapHash(data));
        Fill(data);
        o, assemble := ConcludePart(obs);
      }
    }

    method MeasureResponse(obs: Observation)
      requires Valid()
      modifies this`retries, this`awaitingResponse, this`fastRounds, this`windowMax
      ensures Valid()
      ensures View() == NoteResponse(old(View()), obs)
    {
      retries := MAX_RETRIES;
      if awaitingResponse {
        awaitingResponse := false;
        if obs.rttPositive && obs.responseFast {
          CountFastRound();
        }
      }
    }

    method ConcludePart(obs: Observation) returns (o: Output, assemble: bool)
      requires Valid()
      modifies this
      ensures Valid()
      ensures (View(), o, assemble) == AfterFill(old(View()), obs)
    {
      o, assemble := Silent, false;
      AfterFillKeeps(View(), obs);
      if received == |parts| && !assemblyLock {
        assemblyLock := true;
        assemble := true;
      } else if outstanding == 0 {
        ghost var before := View();
        AdjustWindow(obs);
        WindowsKeep(before, View());
        o := RequestNext();
      }
    }

    method CountFastRound()
      modifies this`fastRounds, this`windowMax
      ensures View() == NoteFast(old(View()))
    {
      if fastRounds < FAST_RATE_THRESHOLD {
        fastRounds := fastRounds + 1;
        if fastRounds == FAST_RATE_THRESHOLD {
          windowMax := WINDOW_MAX_FAST;
        }
      }
    }

    method Grow()
      requires WindowBounds(windowMin, window, windowMax)
      modifies this`window, this`windowMin
      ensures View() == GrowWindow(old(View()))
    {
      if window < windowMax {
        window := window + 1;
        if window - windowMin > WINDOW_FLEXIBILITY - 1 {
          windowMin := windowMin + 1;
        }
      }
    }

    method Shrink()
      requires WindowBounds(windowMin, window, windowMax)
      modifies this`window, this`windowMax
      ensures View() == ShrinkWindow(old(View()))
    {
      if window > windowMin {
        window := window - 1;
        if windowMax > windowMin {
          windowMax := windowMax - 1;
          if windowMax - window > WINDOW_FLEXIBILITY - 1 {
            windowMax := windowMax - 1;
          }
        }
      }
    }

    method CountVerySlowRound()
      modifies this`slowRounds, this`windowMax
      ensures View() == NoteVerySlow(old(View()))
    {
      if fastRounds == 0 && slowRounds < VERY_SLOW_RATE_THRESHOLD {
        slowRounds := slowRounds + 1;
        if slowRounds == VERY_SLOW_RATE_THRESHOLD {
          windowMax := WINDOW_MAX_VERY_SLOW;
        }
      }
    }

    /** The end of a request round. */
    method AdjustWindow(obs: Observation)
      requires WindowBounds(windowMin, window, windowMax)
      modifies this`window, this`windowMin, this`windowMax, this`fastRounds, this`slowRounds
      ensures View() == EndRound(old(View()), obs)
    {
      Grow();
      if obs.roundTimed {
        if obs.roundFast {
          CountFastRound();
        }
        if obs.roundVerySlow {
          CountVerySlowRound();
        }
      }
    }

    method PrepareRetry()
      requires Valid() && retries > 0
      modifies this`window, this`windowMax, this`retries, this`waiting
      ensures Valid() && View() == Retrying(old(View()))
    {
      RetryingKeeps(View());
      Shrink();
      retries := retries - 1;
      waiting := false;
    }

    /** One watchdog expiry while transferring. */
    method Timeout() returns (o: Output)
      requires Valid()
      modifies this
      ensures Valid()
      ensures (View(), o) == Spec.Timeout(old(View()))
    {
      o := Silent;
      if status.Transferring? {
        if retries > 0 {
          PrepareRetry();
          o := RequestNext();
        } else {
          status := Failed;
        }
      }
    }
  }
}
