/** The sending side of a Resource transfer (reference/RNS/Resource.py): resolving requested
    map hashes inside a sliding search scope and serving hash pages. */
module ResourceSender {
  import opened Prelude
  import opened ResourceReceiver

  const COLLISION_GUARD_SIZE: nat := 2 * WINDOW_MAX_FAST + HASHMAP_MAX_LEN

  datatype SendStatus = Advertised | Sending | AwaitingProof | Done | Cancelled

  datatype Sender = Sender(
    status: SendStatus,
    hashes: seq<MapHash>,
    sent: seq<bool>,
    sentParts: nat,
    minHeight: nat,      // receiver_min_consecutive_height
    retries: nat)

  datatype Page = Page(segment: nat, hashes: seq<MapHash>)

  /** What one request made the sender transmit: parts, then maybe a hash page, or a cancel. */
  datatype Response = Response(parts: seq<int>, page: Option<Page>, sequencingError: bool)

  function SentSet(sent: seq<bool>): set<int> {
    set i | 0 <= i < |sent| && sent[i]
  }

  ghost predicate Consistent(s: Sender) {
    && |s.sent| == |s.hashes|
    && s.sentParts == |SentSet(s.sent)|
    && s.minHeight <= |s.hashes|
  }

  /** Indices of [lo, hi) whose hash is wanted, in ascending order. */
  function Matches(hashes: seq<MapHash>, lo: nat, hi: nat, wanted: seq<MapHash>): (m: seq<int>)
    requires lo <= hi <= |hashes|
    ensures forall k :: 0 <= k < |m| ==> lo <= m[k] < hi
    decreases hi - lo
  {
    if lo == hi then []
    else if hashes[lo] in wanted then [lo] + Matches(hashes, lo + 1, hi, wanted)
    else Matches(hashes, lo + 1, hi, wanted)
  }

  lemma {:induction false} MatchesSound(hashes: seq<MapHash>, lo: nat, hi: nat, wanted: seq<MapHash>)
    requires lo <= hi <= |hashes|
    ensures var m := Matches(hashes, lo, hi, wanted);
            && Ascending(m)
            && (forall k :: 0 <= k < |m| ==> hashes[m[k]] in wanted)
            && (forall i :: lo <= i < hi && hashes[i] in wanted ==> i in m)
    decreases hi - lo
  {
    if lo < hi {
      MatchesSound(hashes, lo + 1, hi, wanted);
      var rest := Matches(hashes, lo + 1, hi, wanted);
      if hashes[lo] in wanted {
        assert Matches(hashes, lo, hi, wanted) == [lo] + rest;
      }
    }
  }

  /** One past the first index of [lo, hi) with hash `last`; the end of the scope if there is none. */
  function Locate(hashes: seq<MapHash>, lo: nat, hi: nat, last: MapHash): (k: nat)
    requires lo <= hi <= |hashes|
    ensures lo <= k <= hi
    ensures forall i :: lo <= i < k - 1 ==> hashes[i] != last
    ensures (exists i :: lo <= i < hi && hashes[i] == last) ==> lo < k && hashes[k - 1] == last
    ensures (forall i :: lo <= i < hi ==> hashes[i] != last) ==> k == hi
    decreases hi - lo
  {
    if lo == hi then hi
    else if hashes[lo] == last then lo + 1
    else Locate(hashes, lo + 1, hi, last)
  }

  function MarkSent(sent: seq<bool>, idx: seq<int>): (s: seq<bool>)
    ensures |s| == |sent|
  {
    seq(|sent|, i requires 0 <= i < |sent| => sent[i] || i in idx)
  }

  lemma MarkSentAppend(sent: seq<bool>, idx: seq<int>, i: nat)
    requires i < |sent|
    ensures MarkSent(sent, idx + [i]) == MarkSent(sent, idx)[i := true]
  {
  }

  lemma SentSetAdd(sent: seq<bool>, i: nat)
    requires i < |sent|
    ensures SentSet(sent[i := true]) == SentSet(sent) + {i}
  {
  }

  /** The hashes of one page; empty when the page starts past the end. */
  function PageOf(hashes: seq<MapHash>, segment: nat): (p: Page) {
    var start := segment * HASHMAP_MAX_LEN;
    Page(segment, if start <= |hashes| then hashes[start..Min(start + HASHMAP_MAX_LEN, |hashes|)] else [])
  }

  function ScopeEnd(s: Sender): (hi: nat)
    requires s.minHeight <= |s.hashes|
    ensures s.minHeight <= hi <= |s.hashes|
  {
    Min(s.minHeight + COLLISION_GUARD_SIZE, |s.hashes|)
  }

  function SendParts(s: Sender, idx: seq<int>): (t: Sender) {
    var sent := MarkSent(s.sent, idx);
    s.(status := Sending, retries := MAX_RETRIES, sent := sent, sentParts := |SentSet(sent)|)
  }

  function CheckAllSent(s: Sender): (t: Sender) {
    if s.sentParts == |s.hashes| then s.(status := AwaitingProof, retries := 3) else s
  }

  /** request */
  function Serve(s: Sender, req: Request): (o: (Sender, Response))
    requires Consistent(s)
  {
    if s.status.Cancelled? then (s, Response([], None, false))
    else
      var hi := ScopeEnd(s);
      var idx := Matches(s.hashes, s.minHeight, hi, req.wanted);
      var s1 := SendParts(s, idx);
      if req.exhausted then
        var part := Locate(s.hashes, s.minHeight, hi, req.last);
        var s2 := s1.(minHeight := Max(part - 1 - WINDOW_MAX_FAST, 0));
        if part % HASHMAP_MAX_LEN != 0 then (s2.(status := Cancelled), Response(idx, None, true))
        else (CheckAllSent(s2), Response(idx, Some(PageOf(s.hashes, part / HASHMAP_MAX_LEN)), false))
      else (CheckAllSent(s1), Response(idx, None, false))
  }

  lemma SendPartsKeeps(s: Sender, idx: seq<int>)
    requires Consistent(s)
    requires forall k :: 0 <= k < |idx| ==> 0 <= idx[k] < |s.hashes|
    ensures var t := SendParts(s, idx);
            && Consistent(t) && t.hashes == s.hashes
            && SentSet(s.sent) <= SentSet(t.sent)
            && (forall k :: 0 <= k < |idx| ==> t.sent[idx[k]])
            && (t.sentParts == |t.hashes| <==> forall i :: 0 <= i < |t.sent| ==> t.sent[i])
  {
    var sent := MarkSent(s.sent, idx);
    RangeSize(|sent|);
    SubsetSize(SentSet(sent), Range(|sent|));
    if |SentSet(sent)| == |sent| {
      forall i | 0 <= i < |sent| ensures sent[i] {
        assert i in Range(|sent|);
      }
    }
    if forall i :: 0 <= i < |sent| ==> sent[i] {
      assert SentSet(sent) == Range(|sent|);
    }
  }

  /** request keeps the sent counter exact and the scope inside the table; all parts sent means awaiting proof. */
  lemma ServeKeeps(s: Sender, req: Request)
    requires Consistent(s)
    ensures var (t, resp) := Serve(s, req);
            && Consistent(t) && t.hashes == s.hashes
            && SentSet(s.sent) <= SentSet(t.sent)
            && (forall k :: 0 <= k < |resp.parts| ==> 0 <= resp.parts[k] < |t.sent| && t.sent[resp.parts[k]])
            && (!s.status.Cancelled? && !resp.sequencingError ==>
                  (t.status == AwaitingProof <==> forall i :: 0 <= i < |t.sent| ==> t.sent[i]))
  {
    if !s.status.Cancelled? {
      SendPartsKeeps(s, Matches(s.hashes, s.minHeight, ScopeEnd(s), req.wanted));
    }
  }
}
