/** The propagation node of reference/LXMF/LXMRouter.py as an object: its loops over requested, purged and
    heaviest entries, each proved against the functions of module PropagationStore. */
module PropagationNode {
  import opened Prelude
  import Spec = PropagationStore

  type Entry = Spec.Entry

  class Node {
    var entries: seq<Entry>

    constructor ()
      ensures entries == []
    {
      entries := [];
    }

    method MessageGetRequest(dst: Bytes, r: Spec.Request) returns (items: seq<Bytes>)
      modifies this
      ensures entries == Spec.StoreAfter(old(entries), dst, r)
      ensures items == Spec.Answer(old(entries), dst, r)
    {
      if r.wants.None? && r.haves.None? {
        items := List(entries, dst);
      } else {
        if r.haves.Some? {
          Purge(dst, r.haves.value);
        }
        items := [];
        if r.wants.Some? {
          items := Download(entries, dst, r.wants.value, r.limit);
        }
      }
    }

    static method List(entries: seq<Entry>, dst: Bytes) returns (ids: seq<Bytes>)
      ensures ids == Spec.Listing(entries, dst)
    {
      var available: seq<Entry> := [];
      for i := 0 to |entries|
        invariant available == Spec.For(entries[..i], dst)
      {
        assert entries[..i + 1][..i] == entries[..i];
        if entries[i].dst == dst {
          available := available + [entries[i]];
        }
      }
      assert entries[..|entries|] == entries;
      available := Spec.Sorted(available, Spec.SizeKey);
      ids := [];
      for i := 0 to |available|
        invariant ids == Spec.Ids(available[..i])
      {
        ids := ids + [available[i].id];
      }
      assert available[..|available|] == available;
    }

    method Purge(dst: Bytes, haves: seq<Bytes>)
      modifies this
      ensures entries == Spec.Purge(old(entries), dst, haves)
    {
      for i := 0 to |haves|
        invariant entries == Spec.Purge(old(entries), dst, haves[..i])
      {
        assert haves[..i + 1][..i] == haves[..i];
        var e := Spec.Find(entries, haves[i]);
        if e.Some? && e.value.dst == dst {
          entries := Spec.Pop(entries, haves[i]);
        }
      }
      assert haves[..|haves|] == haves;
    }

    static method Download(entries: seq<Entry>, dst: Bytes, wants: seq<Bytes>, limit: Option<int>) returns (blobs: seq<Bytes>)
      ensures blobs == Spec.Blobs(Spec.Choose(entries, dst, wants, limit).chosen)
    {
      blobs := [];
      var cumulative := Spec.STRUCTURE_OVERHEAD;
      for i := 0 to |wants|
        invariant blobs == Spec.Blobs(Spec.Choose(entries, dst, wants[..i], limit).chosen)
        invariant cumulative == Spec.Choose(entries, dst, wants[..i], limit).size
      {
        assert wants[..i + 1][..i] == wants[..i];
        var e := Spec.Find(entries, wants[i]);
        if e.Some? && e.value.dst == dst {
          var next := cumulative + Spec.Size(e.value) + Spec.PER_MESSAGE_OVERHEAD;
          if !(limit.Some? && next > limit.value) {
            blobs := blobs + [Spec.Blob(e.value)];
            cumulative := next;
          }
        }
      }
      assert wants[..|wants|] == wants;
    }

    static method StorageSize(entries: seq<Entry>) returns (n: nat)
      ensures n == Spec.Total(entries)
    {
      n := 0;
      for i := 0 to |entries|
        invariant n == Spec.Total(entries[..i])
      {
        assert entries[..i + 1][..i] == entries[..i];
        n := n + Spec.Size(entries[i]);
      }
      assert entries[..|entries|] == entries;
    }

    static method FindExpired(entries: seq<Entry>, now: real) returns (ids: seq<Bytes>)
      ensures ids == Spec.ExpiredIds(entries, now)
    {
      ids := [];
      for i := 0 to |entries|
        invariant ids == Spec.ExpiredIds(entries[..i], now)
      {
        assert entries[..i + 1][..i] == entries[..i];
        var e := entries[i];
        if e.value > 0 && e.received > 0.0 && |e.id| == Spec.HASH_SIZE {
          if now > e.received + Spec.MESSAGE_EXPIRY {
            ids := ids + [e.id];
          }
        } else {
          ids := ids + [e.id];
        }
      }
      assert entries[..|entries|] == entries;
    }

    method RemoveExpired(now: real)
      modifies this
      ensures entries == Spec.Expire(old(entries), now)
    {
      var ids := FindExpired(entries, now);
      for i := 0 to |ids|
        invariant entries == Spec.PopAll(old(entries), ids[..i])
      {
        assert ids[..i + 1][..i] == ids[..i];
        entries := Spec.Pop(entries, ids[i]);
      }
      assert ids[..|ids|] == ids;
    }

    method CleanMessageStore(limit: Option<nat>, now: real, clock: Entry -> real, prioritised: set<Bytes>,
                             stuck: set<Bytes>) returns (cleaned: nat)
      modifies this
      ensures entries == Spec.CleanStore(old(entries), limit, now, clock, prioritised, stuck).store
      ensures cleaned == Spec.CleanStore(old(entries), limit, now, clock, prioritised, stuck).cleaned
    {
      RemoveExpired(now);
      cleaned := Cull(limit, clock, prioritised, stuck);
    }

    /** The culling half of clean_message_store; returns the bytes cleaned. */
    method Cull(limit: Option<nat>, clock: Entry -> real, prioritised: set<Bytes>, stuck: set<Bytes>) returns (cleaned: nat)
      modifies this
      ensures entries == Spec.CullStore(old(entries), limit, clock, prioritised, stuck).store
      ensures cleaned == Spec.CullStore(old(entries), limit, clock, prioritised, stuck).cleaned
    {
      cleaned := 0;
      var size := StorageSize(entries);
      if limit.Some? && size > limit.value {
        var needed := size - limit.value;
        var order := Spec.Heaviest(entries, clock, prioritised);
        cleaned := CullInOrder(order, needed, stuck);
      }
    }

    method CullInOrder(order: seq<Entry>, needed: nat, stuck: set<Bytes>) returns (cleaned: nat)
      modifies this
      ensures entries == Spec.Culled(old(entries), order, needed, stuck).store
      ensures cleaned == Spec.Culled(old(entries), order, needed, stuck).cleaned
    {
      cleaned := 0;
      var i := 0;
      while i < |order| && cleaned < needed
        invariant 0 <= i <= |order|
        invariant entries == Spec.Culled(old(entries), order[..i], needed, stuck).store
        invariant cleaned == Spec.Culled(old(entries), order[..i], needed, stuck).cleaned
      {
        assert order[..i + 1][..i] == order[..i];
        var e := order[i];
        if e.id !in stuck {
          entries := Spec.Pop(entries, e.id);
          cleaned := cleaned + Spec.Size(e);
        }
        i := i + 1;
      }
      Spec.CulledStops(old(entries), order, i, |order|, needed, stuck);
      assert order[..|order|] == order;
    }
  }
}
