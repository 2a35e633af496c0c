/** The sending Resource as an object; its loops are proved equal to ResourceSender.Serve. */
module SenderObject {
  import opened Prelude
  import opened ResourceReceiver
  import opened ResourceSender

  class OutgoingResource {
    var status: SendStatus
    const hashes: seq<MapHash>
    var sent: seq<bool>
    var sentParts: nat
    var minHeight: nat
    var retries: nat

    ghost function View(): Sender
      reads this
    {
      Sender(status, hashes, sent, sentParts, minHeight, retries)
    }

    ghost predicate Valid()
      reads this
    {
      Consistent(View())
    }

    constructor (hashes: seq<MapHash>)
      ensures Valid()
      ensures View() == Sender(Advertised, hashes, seq(|hashes|, i => false), 0, 0, 4)
    {
      this.hashes := hashes;
      status := Advertised;
      sent := seq(|hashes|, i => false);
      sentParts, minHeight, retries := 0, 0, 4;
      new;
      assert SentSet(sent) == {};
    }

    /** Parts of the search scope whose hash was requested. */
    method Filter(wanted: seq<MapHash>) returns (idx: seq<int>)
      requires Valid()
      ensures idx == Matches(hashes, minHeight, ScopeEnd(View()), wanted)
    {
      var hi := Min(minHeight + COLLISION_GUARD_SIZE, |hashes|);
      idx := [];
      var i := minHeight;
      while i < hi
        invariant minHeight <= i <= hi
        invariant idx + Matches(hashes, i, hi, wanted) == Matches(hashes, minHeight, hi, wanted)
      {
        ghost var rest := Matches(hashes, i + 1, hi, wanted);
        if hashes[i] in wanted {
          assert idx + ([i] + rest) == (idx + [i]) + rest;
          idx := idx + [i];
        }
        i := i + 1;
      }
    }

    /** Send the parts not sent before and resend the others. */
    method Transmit(idx: seq<int>)
      requires Valid()
      requires forall k :: 0 <= k < |idx| ==> 0 <= idx[k] < |sent|
      modifies this`sent, this`sentParts
      ensures Valid()
      ensures sent == MarkSent(old(sent), idx)
    {
      ghost var was := sent;
      var k := 0;
      while k < |idx|
        invariant 0 <= k <= |idx|
        invariant |sent| == |was| && sent == MarkSent(was, idx[..k])
        invariant sentParts == |SentSet(sent)|
      {
        var i := idx[k];
        MarkSentAppend(was, idx[..k], i);
        assert idx[..k + 1] == idx[..k] + [i];
        if !sent[i] {
          SentSetAdd(sent, i);
          sent := sent[i := true];
          sentParts := sentParts + 1;
        }
        k := k + 1;
      }
      assert idx[..k] == idx;
    }

    /** Find where the receiver's hash table ends. */
    method FindLast(last: MapHash) returns (part: nat)
      requires Valid()
      ensures part == Locate(hashes, minHeight, ScopeEnd(View()), last)
    {
      var hi := Min(minHeight + COLLISION_GUARD_SIZE, |hashes|);
      part := minHeight;
      var found := false;
      while part < hi && !found
        invariant minHeight <= part <= hi
        invariant !found ==> Locate(hashes, minHeight, hi, last) == Locate(hashes, part, hi, last)
        invariant found ==> Locate(hashes, minHeight, hi, last) == part
        decreases hi - part
      {
        part := part + 1;
        if hashes[part - 1] == last {
          found := true;
        }
      }
    }

    method BuildPage(segment: nat) returns (page: Page)
      ensures page == PageOf(hashes, segment)
    {
      var start := segment * HASHMAP_MAX_LEN;
      var end := Min(start + HASHMAP_MAX_LEN, |hashes|);
      var entries: seq<MapHash> := [];
      var i := start;
      while i < end
        invariant start <= i
        invariant i <= end || i == start
        invariant entries == if start <= |hashes| then hashes[start..i] else []
        decreases end - i
      {
        entries := entries + [hashes[i]];
        i := i + 1;
      }
      page := Page(segment, entries);
    }

    method Serve(req: Request) returns (resp: Response)
      requires Valid()
      modifies this
      ensures (View(), resp) == ResourceSender.Serve(old(View()), req)
    {
      resp := Response([], None, false);
      if !status.Cancelled? {
        status := Sending;
        retries := MAX_RETRIES;
        var idx := Filter(req.wanted);
        var part := 0;
        if req.exhausted {
          part := FindLast(req.last);
        }
        Transmit(idx);
        resp := resp.(parts := idx);
        if req.exhausted {
          minHeight := Max(part - 1 - WINDOW_MAX_FAST, 0);
          if part % HASHMAP_MAX_LEN != 0 {
            status := Cancelled;
            return resp.(sequencingError := true);
          }
          var page := BuildPage(part / HASHMAP_MAX_LEN);
          resp := resp.(page := Some(page));
        }
        if sentParts == |hashes| {
          status := AwaitingProof;
          retries := 3;
        }
      }
    }
  }
}
