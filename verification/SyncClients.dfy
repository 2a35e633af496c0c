/** The two sync clients as objects whose handlers loop over a reply: sync_response of host-client/src/main.rs and
    message_list_response and message_get_response of reference/LXMF/LXMRouter.py. */
module SyncClients {
  import opened Prelude
  import LxmfMessage
  import Store = PropagationStore
  import Spec = PropagationSync

  /** An item of a reply to the Rust client: binary, or a value it passes over. */
  datatype Value = Bin(bytes: Bytes) | Other

  /** A reply: an error code of the node, or an array. */
  datatype Response = ErrorCode | Items(items: seq<Value>)

  function Bins(items: seq<Value>): seq<Bytes> {
    if items == [] then []
    else if items[|items| - 1].Bin? then Bins(items[..|items| - 1]) + [items[|items| - 1].bytes]
    else Bins(items[..|items| - 1])
  }

  /** A request of the Rust client, which sends a listing back as it came. */
  datatype RustRequest = RustRequest(wants: Option<seq<Value>>, haves: Option<seq<Bytes>>, limit: Option<int>)

  /** What it asks of the node: a value that is not binary names no message. */
  function Named(r: Option<RustRequest>): Option<Store.Request> {
    if r.None? then None
    else
      var q := r.value;
      Some(Store.Request(if q.wants.Some? then Some(Bins(q.wants.value)) else None, q.haves, q.limit))
  }

  class RustClient {
    var phase: nat

    constructor ()
      ensures phase == 0
    {
      phase := 0;
    }

    /** The confirmation in phase 2: the hash of every binary item. */
    static method Confirm(h: Bytes -> Bytes, items: seq<Value>) returns (r: Option<RustRequest>)
      ensures Named(r) == Spec.AfterMessages(h, Bins(items)) && (r.Some? ==> r.value.wants.None?)
    {
      var haves: seq<Bytes> := [];
      for i := 0 to |items|
        invariant haves == Map(h, Bins(items[..i]))
      {
        assert items[..i + 1][..i] == items[..i];
        if items[i].Bin? {
          haves := haves + [h(items[i].bytes)];
        }
      }
      assert items[..|items|] == items;
      r := if haves == [] then None else Some(RustRequest(None, Some(haves), None));
    }

    /** An error ends the session; an array is read by the phase alone, and a listing is sent back whole. When all the
        items are binary the reply is answered as the specification says. */
    method SyncResponse(h: Bytes -> Bytes, resp: Response, ghost c: Spec.Client, ghost listing: bool)
      returns (r: Option<RustRequest>)
      requires c.rust && c.phase == phase
      modifies this
      ensures resp.ErrorCode? ==> r.None? && phase == 0
      ensures resp.Items? && old(phase) == 1 ==>
                if resp.items == [] then r.None? && phase == 0
                else r == Some(RustRequest(Some(resp.items), Some([]), Some(Spec.RUST_LIMIT))) && phase == 2
      ensures resp.Items? && old(phase) == 2 ==>
                Named(r) == Spec.AfterMessages(h, Bins(resp.items)) && phase == 0 && (r.Some? ==> r.value.wants.None?)
      ensures resp.Items? && old(phase) != 1 && old(phase) != 2 ==> r.None? && phase == old(phase)
      ensures resp.Items? && (forall i :: 0 <= i < |resp.items| ==> resp.items[i].Bin?) ==>
                && Named(r) == Spec.Respond(h, c, listing, Bins(resp.items))
                && phase == Spec.After(h, c, listing, Bins(resp.items), {}).phase
    {
      r := None;
      if resp.ErrorCode? {
        phase := 0;
        return;
      }
      var items := resp.items;
      if forall i :: 0 <= i < |items| ==> items[i].Bin? {
        AllBins(items);
      }
      if phase == 1 {
        if items == [] {
          phase := 0;
        } else {
          r := Some(RustRequest(Some(items), Some([]), Some(Spec.RUST_LIMIT)));
          phase := 2;
        }
      } else if phase == 2 {
        r := Confirm(h, items);
        phase := 0;
      }
    }
  }

  lemma {:induction false} AllBins(items: seq<Value>)
    requires forall i :: 0 <= i < |items| ==> items[i].Bin?
    ensures |Bins(items)| == |items|
  {
    if items != [] {
      AllBins(items[..|items| - 1]);
    }
  }

  class ReferenceClient {
    var delivered: set<Bytes>
    const retain: bool
    const most: Option<nat>
    const limit: Option<int>

    constructor (retain: bool, most: Option<nat>, limit: Option<int>)
      ensures delivered == {} && this.retain == retain && this.most == most && this.limit == limit
    {
      delivered := {};
      this.retain := retain;
      this.most := most;
      this.limit := limit;
    }

    method MessageListResponse(ids: seq<Bytes>, ghost c: Spec.Client) returns (r: Option<Store.Request>)
      requires !c.rust && Spec.HadIds(c) == delivered && c.retain == retain && c.most == most && c.limit == limit
      ensures r == Spec.AfterListing(c, ids)
    {
      var wants: seq<Bytes> := [];
      var haves: seq<Bytes> := [];
      for i := 0 to |ids|
        invariant wants == Store.Wanted(ids[..i], delivered, most)
        invariant haves == if retain then [] else Spec.Had(ids[..i], delivered)
      {
        assert ids[..i + 1][..i] == ids[..i];
        if ids[i] in delivered {
          if !retain {
            haves := haves + [ids[i]];
          }
        } else if most.None? || |wants| < most.value {
          wants := wants + [ids[i]];
        }
      }
      assert ids[..|ids|] == ids;
      r := if ids == [] then None else Some(Store.Request(Some(wants), Some(haves), limit));
    }

    /** `opens` says which messages are new and decrypt; each of those counts as delivered from then on. */
    method MessageGetResponse(h: Bytes -> Bytes, opens: Bytes -> bool, blobs: seq<Bytes>) returns (r: Option<Store.Request>)
      modifies this
      ensures r == Spec.AfterMessages(h, blobs)
      ensures delivered == old(delivered) + set b | b in blobs && |b| >= LxmfMessage.LXMF_OVERHEAD && opens(b) :: h(b)
    {
      var haves: seq<Bytes> := [];
      for i := 0 to |blobs|
        invariant haves == Map(h, blobs[..i])
        invariant delivered == old(delivered) + set b | b in blobs[..i] && |b| >= LxmfMessage.LXMF_OVERHEAD && opens(b) :: h(b)
      {
        assert blobs[..i + 1] == blobs[..i] + [blobs[i]];
        if |blobs[i]| >= LxmfMessage.LXMF_OVERHEAD && opens(blobs[i]) {
          delivered := delivered + {h(blobs[i])};
        }
        haves := haves + [h(blobs[i])];
      }
      assert blobs[..|blobs|] == blobs;
      r := if blobs == [] then None else Some(Store.Request(None, Some(haves), None));
    }
  }
}
