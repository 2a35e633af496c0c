/** The message store of a propagation node (reference/LXMF/LXMRouter.py): listing and purging for a client,
    the size-limited download, and culling by weight. */
module PropagationStore {
  import opened Prelude
  import opened LxmfMessage

  const STAMP_SIZE: nat := 32
  const PER_MESSAGE_OVERHEAD: nat := 16
  const STRUCTURE_OVERHEAD: nat := 24

  /** An entry of propagation_entries with the contents of its file: the message and the stamp behind it; and the value
      of the stamp, which is in the name of the file unless it is zero. */
  datatype Entry = Entry(id: Bytes, dst: Bytes, data: Bytes, stamp: Bytes, value: nat, received: real)

  function Size(e: Entry): nat {
    |e.data| + |e.stamp|
  }

  function Total(s: seq<Entry>): nat {
    if s == [] then 0 else Total(s[..|s| - 1]) + Size(s[|s| - 1])
  }

  /** The store is a dictionary: its entries in order of insertion, no id twice. */
  ghost predicate Distinct(s: seq<Entry>) {
    forall i, j :: 0 <= i < j < |s| ==> s[i].id != s[j].id
  }

  // ---- dictionary operations ----

  function Find(s: seq<Entry>, id: Bytes): (e: Option<Entry>)
    ensures e.Some? ==> e.value in s && e.value.id == id
  {
    if s == [] then None
    else if s[|s| - 1].id == id then Some(s[|s| - 1])
    else Find(s[..|s| - 1], id)
  }

  lemma {:induction false} FindMember(s: seq<Entry>, k: nat)
    requires Distinct(s) && k < |s|
    ensures Find(s, s[k].id) == Some(s[k])
  {
    if k < |s| - 1 {
      FindMember(s[..|s| - 1], k);
    }
  }

  function Pop(s: seq<Entry>, id: Bytes): seq<Entry> {
    if s == [] then []
    else if s[|s| - 1].id == id then Pop(s[..|s| - 1], id)
    else Pop(s[..|s| - 1], id) + [s[|s| - 1]]
  }

  lemma {:induction false} PopKeeps(s: seq<Entry>, id: Bytes)
    requires Distinct(s)
    ensures Distinct(Pop(s, id))
    ensures forall e :: e in Pop(s, id) <==> e in s && e.id != id
  {
    if s != [] {
      var r := s[..|s| - 1];
      PopKeeps(r, id);
      assert s == r + [s[|s| - 1]];
      var t := Pop(r, id);
      forall k | 0 <= k < |t|
        ensures t[k].id != s[|s| - 1].id
      {
        assert t[k] in r;
      }
    }
  }

  lemma {:induction false} PopTotal(s: seq<Entry>, id: Bytes)
    requires Distinct(s)
    ensures Total(Pop(s, id)) == Total(s) - (if Find(s, id).Some? then Size(Find(s, id).value) else 0)
  {
    if s != [] {
      var r, last := s[..|s| - 1], s[|s| - 1];
      PopTotal(r, id);
      var t := Pop(r, id);
      assert (t + [last])[..|t|] == t;
      if last.id == id {
        NotFound(r, id);
      }
    }
  }

  lemma {:induction false} NotFound(s: seq<Entry>, id: Bytes)
    requires forall k :: 0 <= k < |s| ==> s[k].id != id
    ensures Find(s, id).None?
  {
  }

  // ---- sorting ----

  /** list.sort(key=key): stable, ascending. */
  function Sorted(s: seq<Entry>, key: Entry -> real): seq<Entry> {
    if s == [] then [] else Insert(Sorted(s[..|s| - 1], key), s[|s| - 1], key)
  }

  function Insert(s: seq<Entry>, e: Entry, key: Entry -> real): (t: seq<Entry>)
    ensures |t| == |s| + 1
  {
    if s == [] || key(s[|s| - 1]) <= key(e) then s + [e]
    else Insert(s[..|s| - 1], e, key) + [s[|s| - 1]]
  }

  ghost predicate Ordered(s: seq<Entry>, key: Entry -> real) {
    forall i, j :: 0 <= i < j < |s| ==> key(s[i]) <= key(s[j])
  }

  lemma {:induction false} InsertMultiset(s: seq<Entry>, e: Entry, key: Entry -> real)
    ensures multiset(Insert(s, e, key)) == multiset(s) + multiset{e}
  {
    if s != [] && !(key(s[|s| - 1]) <= key(e)) {
      InsertMultiset(s[..|s| - 1], e, key);
      assert s == s[..|s| - 1] + [s[|s| - 1]];
    }
  }

  lemma {:induction false} InsertOrdered(s: seq<Entry>, e: Entry, key: Entry -> real)
    requires Ordered(s, key)
    ensures Ordered(Insert(s, e, key), key)
  {
    if s != [] && !(key(s[|s| - 1]) <= key(e)) {
      var r, last := s[..|s| - 1], s[|s| - 1];
      InsertOrdered(r, e, key);
      var t := Insert(r, e, key);
      InsertMultiset(r, e, key);
      forall k | 0 <= k < |t|
        ensures key(t[k]) <= key(last)
      {
        assert t[k] in multiset(t);
        assert t[k] == e || t[k] in r;
      }
    }
  }

  lemma {:induction false} SortedIs(s: seq<Entry>, key: Entry -> real)
    ensures multiset(Sorted(s, key)) == multiset(s)
    ensures Ordered(Sorted(s, key), key)
  {
    if s != [] {
      var r := s[..|s| - 1];
      SortedIs(r, key);
      InsertMultiset(Sorted(r, key), s[|s| - 1], key);
      InsertOrdered(Sorted(r, key), s[|s| - 1], key);
      assert s == r + [s[|s| - 1]];
    }
  }

  lemma SortedMembers(s: seq<Entry>, key: Entry -> real)
    ensures |Sorted(s, key)| == |s|
    ensures forall e :: e in Sorted(s, key) <==> e in s
  {
    SortedIs(s, key);
    var t := Sorted(s, key);
    assert |multiset(t)| == |t| && |multiset(s)| == |s|;
    forall e
      ensures e in t <==> e in s
    {
      assert e in t <==> e in multiset(t);
      assert e in s <==> e in multiset(s);
    }
  }

  lemma {:induction false} SortedDistinct(s: seq<Entry>, key: Entry -> real)
    requires Distinct(s)
    ensures Distinct(Sorted(s, key))
  {
    if s != [] {
      var r, e := s[..|s| - 1], s[|s| - 1];
      SortedDistinct(r, key);
      SortedMembers(r, key);
      var t := Sorted(r, key);
      forall k | 0 <= k < |t|
        ensures t[k].id != e.id
      {
        assert t[k] in t;
        var m :| 0 <= m < |r| && r[m] == t[k];
        assert s[m] == t[k];
      }
      InsertDistinct(t, e, key);
    }
  }

  lemma {:induction false} InsertDistinct(s: seq<Entry>, e: Entry, key: Entry -> real)
    requires Distinct(s) && forall k :: 0 <= k < |s| ==> s[k].id != e.id
    ensures Distinct(Insert(s, e, key))
  {
    if s != [] && !(key(s[|s| - 1]) <= key(e)) {
      var r, last := s[..|s| - 1], s[|s| - 1];
      InsertDistinct(r, e, key);
      InsertMultiset(r, e, key);
      var t := Insert(r, e, key);
      forall k | 0 <= k < |t|
        ensures t[k].id != last.id
      {
        assert t[k] in multiset(t);
        assert t[k] == e || t[k] in r;
      }
    }
  }

  // ---- listing ----

  function For(s: seq<Entry>, dst: Bytes): seq<Entry> {
    if s == [] then []
    else if s[|s| - 1].dst == dst then For(s[..|s| - 1], dst) + [s[|s| - 1]]
    else For(s[..|s| - 1], dst)
  }

  lemma {:induction false} ForIs(s: seq<Entry>, dst: Bytes)
    ensures forall e :: e in For(s, dst) <==> e in s && e.dst == dst
  {
    if s != [] {
      ForIs(s[..|s| - 1], dst);
      assert s == s[..|s| - 1] + [s[|s| - 1]];
    }
  }

  function SizeKey(e: Entry): real {
    Size(e) as real
  }

  function Ids(s: seq<Entry>): seq<Bytes> {
    Map((e: Entry) => e.id, s)
  }

  /** The answer to a request with nothing wanted and nothing had: ids for this client, smallest first. */
  function Listing(s: seq<Entry>, dst: Bytes): seq<Bytes> {
    Ids(Sorted(For(s, dst), SizeKey))
  }

  // ---- purging ----

  function PurgeOne(s: seq<Entry>, dst: Bytes, id: Bytes): seq<Entry> {
    if Find(s, id).Some? && Find(s, id).value.dst == dst then Pop(s, id) else s
  }

  function Purge(s: seq<Entry>, dst: Bytes, haves: seq<Bytes>): seq<Entry> {
    if haves == [] then s
    else PurgeOne(Purge(s, dst, haves[..|haves| - 1]), dst, haves[|haves| - 1])
  }

  lemma PurgeOneIs(s: seq<Entry>, dst: Bytes, id: Bytes)
    requires Distinct(s)
    ensures Distinct(PurgeOne(s, dst, id))
    ensures forall e :: e in PurgeOne(s, dst, id) <==> e in s && !(e.dst == dst && e.id == id)
  {
    PopKeeps(s, id);
    forall e | e in s && e.id == id
      ensures Find(s, id) == Some(e)
    {
      var k :| 0 <= k < |s| && s[k] == e;
      FindMember(s, k);
    }
  }

  /** A purge removes exactly the entries of this client whose ids it names. */
  lemma {:induction false} PurgeIs(s: seq<Entry>, dst: Bytes, haves: seq<Bytes>)
    requires Distinct(s)
    ensures Distinct(Purge(s, dst, haves))
    ensures forall e :: e in Purge(s, dst, haves) <==> e in s && !(e.dst == dst && e.id in haves)
  {
    if haves != [] {
      var r := haves[..|haves| - 1];
      PurgeIs(s, dst, r);
      PurgeOneIs(Purge(s, dst, r), dst, haves[|haves| - 1]);
      assert haves == r + [haves[|haves| - 1]];
    }
  }

  // ---- download ----

  datatype Download = Download(chosen: seq<Entry>, size: nat)

  function Cost(e: Entry): nat {
    Size(e) + PER_MESSAGE_OVERHEAD
  }

  predicate Fits(size: nat, limit: Option<int>) {
    limit.None? || size <= limit.value
  }

  function Offer(d: Download, e: Option<Entry>, dst: Bytes, limit: Option<int>): Download {
    if e.Some? && e.value.dst == dst && Fits(d.size + Cost(e.value), limit) then
      Download(d.chosen + [e.value], d.size + Cost(e.value))
    else d
  }

  /** The wanted messages in the order they are wanted, leaving out those that would go over the limit. */
  function Choose(s: seq<Entry>, dst: Bytes, wants: seq<Bytes>, limit: Option<int>): Download {
    if wants == [] then Download([], STRUCTURE_OVERHEAD)
    else Offer(Choose(s, dst, wants[..|wants| - 1], limit), Find(s, wants[|wants| - 1]), dst, limit)
  }

  /** What is sent of an entry: its file without the last STAMP_SIZE bytes. */
  function Blob(e: Entry): Bytes {
    var stored := e.data + e.stamp;
    if |stored| >= STAMP_SIZE then stored[..|stored| - STAMP_SIZE] else []
  }

  function Blobs(s: seq<Entry>): seq<Bytes> {
    Map(Blob, s)
  }

  /** The blob is the message exactly when the stamp has the fixed size. */
  lemma BlobIsMessage(e: Entry)
    requires |e.data| >= LXMF_OVERHEAD
    ensures Blob(e) == e.data <==> |e.stamp| == STAMP_SIZE
  {
    var stored := e.data + e.stamp;
    if |e.stamp| == STAMP_SIZE {
      assert stored[..|e.data|] == e.data;
    }
  }

  lemma {:induction false} ChosenAre(s: seq<Entry>, dst: Bytes, wants: seq<Bytes>, limit: Option<int>)
    ensures var d := Choose(s, dst, wants, limit);
            && (forall i :: 0 <= i < |d.chosen| ==> d.chosen[i] in s && d.chosen[i].dst == dst && d.chosen[i].id in wants)
            && d.size == STRUCTURE_OVERHEAD + Total(d.chosen) + |d.chosen| * PER_MESSAGE_OVERHEAD
            && (d.chosen != [] ==> Fits(d.size, limit))
  {
    if wants != [] {
      var r, id := wants[..|wants| - 1], wants[|wants| - 1];
      ChosenAre(s, dst, r, limit);
      var d := Choose(s, dst, r, limit);
      var e := Find(s, id);
      if e.Some? {
        assert (d.chosen + [e.value])[..|d.chosen|] == d.chosen;
      }
      assert forall x :: x in r ==> x in wants;
    }
  }

  // ---- the request handler ----

  datatype Request = Request(wants: Option<seq<Bytes>>, haves: Option<seq<Bytes>>, limit: Option<int>)

  predicate IsListing(r: Request) {
    r.wants.None? && r.haves.None?
  }

  function StoreAfter(s: seq<Entry>, dst: Bytes, r: Request): seq<Entry> {
    Purge(s, dst, OrEmpty(r.haves))
  }

  function Sent(s: seq<Entry>, dst: Bytes, r: Request): seq<Entry> {
    Choose(StoreAfter(s, dst, r), dst, OrEmpty(r.wants), r.limit).chosen
  }

  /** message_get_request for an identified and allowed client. */
  function Answer(s: seq<Entry>, dst: Bytes, r: Request): seq<Bytes> {
    if IsListing(r) then Listing(s, dst) else Blobs(Sent(s, dst, r))
  }

  // ---- the download is as large as it can be ----

  /** The wanted entries that are there for this client. */
  function Available(s: seq<Entry>, dst: Bytes, wants: seq<Bytes>): seq<Entry> {
    if wants == [] then []
    else
      var before := Available(s, dst, wants[..|wants| - 1]);
      var e := Find(s, wants[|wants| - 1]);
      if e.Some? && e.value.dst == dst then before + [e.value] else before
  }

  /** The same choice among the first n of the entries. */
  function Greedy(es: seq<Entry>, n: nat, limit: Option<int>): Download
    requires n <= |es|
  {
    if n == 0 then Download([], STRUCTURE_OVERHEAD)
    else Offer(Greedy(es, n - 1, limit), Some(es[n - 1]), es[n - 1].dst, limit)
  }

  lemma {:induction false} GreedyOf(es: seq<Entry>, more: seq<Entry>, n: nat, limit: Option<int>)
    requires n <= |es|
    ensures Greedy(es + more, n, limit) == Greedy(es, n, limit)
  {
    if n > 0 {
      GreedyOf(es, more, n - 1, limit);
    }
  }

  lemma {:induction false} ChooseIsGreedy(s: seq<Entry>, dst: Bytes, wants: seq<Bytes>, limit: Option<int>)
    ensures var es := Available(s, dst, wants);
            Choose(s, dst, wants, limit) == Greedy(es, |es|, limit)
  {
    if wants != [] {
      ChooseIsGreedy(s, dst, wants[..|wants| - 1], limit);
      var before := Available(s, dst, wants[..|wants| - 1]);
      var e := Find(s, wants[|wants| - 1]);
      if e.Some? && e.value.dst == dst {
        GreedyOf(before, [e.value], |before|, limit);
      }
    }
  }

  ghost predicate SmallestFirst(es: seq<Entry>) {
    forall i, j :: 0 <= i < j < |es| ==> Size(es[i]) <= Size(es[j])
  }

  lemma OrderedBySize(es: seq<Entry>)
    requires Ordered(es, SizeKey)
    ensures SmallestFirst(es)
  {
    forall i, j | 0 <= i < j < |es|
      ensures Size(es[i]) <= Size(es[j])
    {
      assert SizeKey(es[i]) <= SizeKey(es[j]);
    }
  }

  function PrefixCost(es: seq<Entry>, k: nat): nat
    requires k <= |es|
  {
    if k == 0 then 0 else PrefixCost(es, k - 1) + Cost(es[k - 1])
  }

  lemma {:induction false} PrefixCostGrows(es: seq<Entry>, j: nat, k: nat)
    requires j <= k <= |es|
    ensures PrefixCost(es, j) <= PrefixCost(es, k)
  {
    if j < k {
      PrefixCostGrows(es, j, k - 1);
    }
  }

  /** On entries in ascending size the greedy choice costs as much as a prefix, and the next one does not fit. */
  lemma {:induction false} GreedyPrefix(es: seq<Entry>, n: nat, limit: Option<int>)
    requires SmallestFirst(es) && n <= |es|
    ensures var d := Greedy(es, n, limit);
            && |d.chosen| <= n
            && d.size == STRUCTURE_OVERHEAD + PrefixCost(es, |d.chosen|)
            && (|d.chosen| < n ==> !Fits(d.size + Cost(es[|d.chosen|]), limit))
  {
    if n > 0 {
      GreedyPrefix(es, n - 1, limit);
      var k := |Greedy(es, n - 1, limit).chosen|;
      assert k < n - 1 ==> Size(es[k]) <= Size(es[n - 1]);
    }
  }

  /** Any choice among the first n entries, as marks. */
  function Marked(pick: seq<bool>, n: nat): nat
    requires n <= |pick|
  {
    if n == 0 then 0 else Marked(pick, n - 1) + if pick[n - 1] then 1 else 0
  }

  function MarkedCost(es: seq<Entry>, pick: seq<bool>, n: nat): nat
    requires n <= |es| && n <= |pick|
  {
    if n == 0 then 0 else MarkedCost(es, pick, n - 1) + if pick[n - 1] then Cost(es[n - 1]) else 0
  }

  lemma {:induction false} CheapestFirst(es: seq<Entry>, pick: seq<bool>, n: nat)
    requires n <= |es| && n <= |pick| && SmallestFirst(es)
    ensures Marked(pick, n) <= n && PrefixCost(es, Marked(pick, n)) <= MarkedCost(es, pick, n)
  {
    if n > 0 {
      CheapestFirst(es, pick, n - 1);
      var k := Marked(pick, n - 1);
      assert k < n - 1 ==> Size(es[k]) <= Size(es[n - 1]);
    }
  }

  /** No choice that fits the limit has more messages than the greedy one. */
  lemma GreedyIsMost(es: seq<Entry>, limit: Option<int>, pick: seq<bool>)
    requires |es| == |pick| && SmallestFirst(es)
    requires Fits(STRUCTURE_OVERHEAD + MarkedCost(es, pick, |es|), limit)
    ensures Marked(pick, |es|) <= |Greedy(es, |es|, limit).chosen|
  {
    GreedyPrefix(es, |es|, limit);
    CheapestFirst(es, pick, |es|);
    var k := |Greedy(es, |es|, limit).chosen|;
    if Marked(pick, |es|) > k {
      PrefixCostGrows(es, k + 1, Marked(pick, |es|));
    }
  }

  /** What the client asks for of a listing: what it lacks, up to a maximum. */
  function Wanted(ids: seq<Bytes>, had: set<Bytes>, most: Option<nat>): seq<Bytes> {
    if ids == [] then []
    else
      var before := Wanted(ids[..|ids| - 1], had, most);
      var id := ids[|ids| - 1];
      if id !in had && (most.None? || |before| < most.value) then before + [id] else before
  }

  /** The entries are as they were when listed, apart from some being gone and new ones being there. */
  ghost predicate Since(s: seq<Entry>, t: seq<Entry>) {
    forall k :: 0 <= k < |t| ==> (exists m :: 0 <= m < |s| && s[m].id == t[k].id) ==> t[k] in s
  }

  lemma WantedOne(s: seq<Entry>, t: seq<Entry>, e: Entry)
    requires Distinct(s) && Since(s, t) && e in s && Find(t, e.id).Some?
    ensures Find(t, e.id).value == e
  {
    var f := Find(t, e.id).value;
    var k :| 0 <= k < |t| && t[k] == f;
    var m :| 0 <= m < |s| && s[m] == e;
    assert s[m].id == t[k].id;
    var n :| 0 <= n < |s| && s[n] == f;
  }

  lemma OrderedSnoc(es: seq<Entry>, l: seq<Entry>)
    requires l != [] && Ordered(l, SizeKey) && Ordered(es, SizeKey)
    requires forall k :: 0 <= k < |es| ==> es[k] in l[..|l| - 1]
    ensures Ordered(es + [l[|l| - 1]], SizeKey)
    ensures forall k :: 0 <= k < |es| ==> es[k] in l
  {
    forall k | 0 <= k < |es|
      ensures SizeKey(es[k]) <= SizeKey(l[|l| - 1]) && es[k] in l
    {
      var m :| 0 <= m < |l| - 1 && l[m] == es[k];
    }
  }

  lemma WantedSnoc(t: seq<Entry>, l: seq<Entry>, dst: Bytes, had: set<Bytes>, most: Option<nat>)
    requires l != []
    ensures var e := l[|l| - 1];
            var es, next := Available(t, dst, Wanted(Ids(l[..|l| - 1]), had, most)), Available(t, dst, Wanted(Ids(l), had, most));
            next == es || (Find(t, e.id).Some? && next == es + [Find(t, e.id).value])
  {
    var before := Wanted(Ids(l[..|l| - 1]), had, most);
    assert Ids(l)[..|l| - 1] == Ids(l[..|l| - 1]);
    assert (before + [l[|l| - 1].id])[..|before|] == before;
  }

  lemma {:induction false} WantedOrdered(s: seq<Entry>, t: seq<Entry>, l: seq<Entry>, dst: Bytes, had: set<Bytes>, most: Option<nat>)
    requires Distinct(s) && Since(s, t) && Ordered(l, SizeKey)
    requires forall k :: 0 <= k < |l| ==> l[k] in s
    ensures var es := Available(t, dst, Wanted(Ids(l), had, most));
            Ordered(es, SizeKey) && forall k :: 0 <= k < |es| ==> es[k] in l
  {
    if l != [] {
      var r, e := l[..|l| - 1], l[|l| - 1];
      WantedOrdered(s, t, r, dst, had, most);
      OrderedSnoc(Available(t, dst, Wanted(Ids(r), had, most)), l);
      WantedSnoc(t, l, dst, had, most);
      if Find(t, e.id).Some? {
        WantedOne(s, t, e);
      }
    }
  }

  /** A client that asks for what it lacks of a listing is sent as many messages as any choice among those
      still there that fits its limit, and never more bytes than the limit when it is sent any. */
  lemma DownloadIsMost(s: seq<Entry>, t: seq<Entry>, dst: Bytes, had: set<Bytes>, most: Option<nat>, limit: Option<int>, pick: seq<bool>)
    requires Distinct(s) && Since(s, t)
    requires var es := Available(t, dst, Wanted(Listing(s, dst), had, most));
             |pick| == |es| && Fits(STRUCTURE_OVERHEAD + MarkedCost(es, pick, |es|), limit)
    ensures var d := Choose(t, dst, Wanted(Listing(s, dst), had, most), limit);
            Marked(pick, |pick|) <= |d.chosen| && (d.chosen != [] ==> Fits(d.size, limit))
  {
    var l := Sorted(For(s, dst), SizeKey);
    SortedIs(For(s, dst), SizeKey);
    SortedMembers(For(s, dst), SizeKey);
    ForIs(s, dst);
    forall k | 0 <= k < |l|
      ensures l[k] in s
    {
      assert l[k] in l;
    }
    WantedOrdered(s, t, l, dst, had, most);
    var wants := Wanted(Listing(s, dst), had, most);
    OrderedBySize(Available(t, dst, wants));
    GreedyIsMost(Available(t, dst, wants), limit, pick);
    ChooseIsGreedy(t, dst, wants, limit);
    ChosenAre(t, dst, wants, limit);
  }

  // ---- culling ----

  /** In units of four days, and at least one. */
  function AgeWeight(e: Entry, now: real): real {
    var age := (now - e.received) / 60.0 / 60.0 / 24.0 / 4.0;
    if age > 1.0 then age else 1.0
  }

  function Scaled(priority: real, age: real, size: real): real {
    priority * age * size
  }

  function Priority(e: Entry, prioritised: set<Bytes>): real {
    if e.dst in prioritised then 0.1 else 1.0
  }

  /** get_weight */
  function Weight(e: Entry, now: real, prioritised: set<Bytes>): real {
    Scaled(Priority(e, prioritised), AgeWeight(e, now), SizeKey(e))
  }

  lemma ScaledOrder(p: real, x: real, y: real, z: real)
    requires x <= y && z >= 0.0 && p >= 0.0
    ensures Scaled(p, x, z) <= Scaled(p, y, z)
  {
    assert p * (y - x) >= 0.0;
    assert p * (y - x) * z >= 0.0;
    assert p * (y - x) * z == p * y * z - p * x * z;
  }

  lemma ScaledTenth(x: real, z: real)
    ensures Scaled(1.0, x, z) == 10.0 * Scaled(0.1, x, z)
  {
    assert 0.1 * x * z == 0.1 * (x * z);
    assert 1.0 * x * z == x * z;
  }

  /** Of two entries of one size and destination, the older one never weighs less. */
  lemma OlderWeighsMore(e: Entry, f: Entry, now: real, prioritised: set<Bytes>)
    requires Size(e) == Size(f) && e.dst == f.dst && e.received <= f.received
    ensures Weight(e, now, prioritised) >= Weight(f, now, prioritised)
  {
    assert AgeWeight(e, now) >= AgeWeight(f, now);
    ScaledOrder(Priority(e, prioritised), AgeWeight(f, now), AgeWeight(e, now), SizeKey(e));
  }

  /** Of two entries of one size and age, the one for a prioritised destination weighs a tenth. */
  lemma PrioritisedWeighsLess(e: Entry, f: Entry, now: real, prioritised: set<Bytes>)
    requires Size(e) == Size(f) && e.received == f.received && e.dst in prioritised && f.dst !in prioritised
    ensures Weight(f, now, prioritised) == 10.0 * Weight(e, now, prioritised)
  {
    ScaledTenth(AgeWeight(e, now), SizeKey(e));
  }

  /** Each entry is weighed by the clock as it is then. list.sort(key=weight, reverse=True) is the stable ascending
      sort by the opposite key. */
  function Heaviest(s: seq<Entry>, clock: Entry -> real, prioritised: set<Bytes>): seq<Entry> {
    Sorted(s, (e: Entry) => -Weight(e, clock(e), prioritised))
  }

  datatype Cull = Cull(store: seq<Entry>, removed: seq<Entry>, cleaned: nat)

  /** One turn of the culling loop; `stuck` are the ids whose file cannot be deleted. */
  function CullOne(c: Cull, e: Entry, stuck: set<Bytes>): Cull {
    if e.id in stuck then c else Cull(Pop(c.store, e.id), c.removed + [e], c.cleaned + Size(e))
  }

  /** The loop over the heaviest entries, which does nothing more once enough has been cleaned. */
  function Culled(s: seq<Entry>, order: seq<Entry>, needed: int, stuck: set<Bytes>): Cull {
    if order == [] then Cull(s, [], 0)
    else
      var c := Culled(s, order[..|order| - 1], needed, stuck);
      if c.cleaned < needed then CullOne(c, order[|order| - 1], stuck) else c
  }

  /** Once enough is cleaned, the rest of the order changes nothing. */
  lemma {:induction false} CulledStops(s: seq<Entry>, order: seq<Entry>, m: nat, n: nat, needed: int, stuck: set<Bytes>)
    requires m <= n <= |order|
    requires m == n || Culled(s, order[..m], needed, stuck).cleaned >= needed
    ensures Culled(s, order[..n], needed, stuck) == Culled(s, order[..m], needed, stuck)
  {
    if m < n {
      CulledStops(s, order, m, n - 1, needed, stuck);
      assert order[..n][..n - 1] == order[..n - 1];
    }
  }

  /** The second half of clean_message_store. */
  function CullStore(s: seq<Entry>, limit: Option<nat>, clock: Entry -> real, prioritised: set<Bytes>, stuck: set<Bytes>): Cull {
    if limit.None? || Total(s) <= limit.value then Cull(s, [], 0)
    else Culled(s, Heaviest(s, clock, prioritised), Total(s) - limit.value, stuck)
  }

  /** Bytes are conserved, entries of `order` from n on are still there, and what is gone was removed. */
  ghost predicate CullOk(s: seq<Entry>, order: seq<Entry>, n: nat, c: Cull)
    requires n <= |order|
  {
    && Distinct(c.store) && Total(c.store) + c.cleaned == Total(s)
    && (forall k :: n <= k < |order| ==> order[k] in c.store)
    && Parted(s, c.store, c.removed)
  }

  ghost predicate Parted(s: seq<Entry>, kept: seq<Entry>, removed: seq<Entry>) {
    forall e :: e in kept <==> e in s && e !in removed
  }

  lemma PopParts(s: seq<Entry>, kept: seq<Entry>, removed: seq<Entry>, e: Entry)
    requires Distinct(kept) && Parted(s, kept, removed) && e in kept
    ensures Distinct(Pop(kept, e.id)) && Parted(s, Pop(kept, e.id), removed + [e])
    ensures Total(Pop(kept, e.id)) + Size(e) == Total(kept)
  {
    PopKeeps(kept, e.id);
    PopTotal(kept, e.id);
    var m :| 0 <= m < |kept| && kept[m] == e;
    FindMember(kept, m);
    SameId(kept, e);
  }

  lemma CullOneKeeps(s: seq<Entry>, order: seq<Entry>, n: nat, c: Cull, stuck: set<Bytes>)
    requires Distinct(order) && n < |order| && CullOk(s, order, n, c)
    ensures CullOk(s, order, n + 1, CullOne(c, order[n], stuck))
  {
    var e := order[n];
    if e.id !in stuck {
      PopParts(s, c.store, c.removed, e);
      PopKeeps(c.store, e.id);
    }
  }

  lemma {:induction false} CulledKeeps(s: seq<Entry>, order: seq<Entry>, n: nat, needed: int, stuck: set<Bytes>)
    requires Distinct(s) && Distinct(order) && n <= |order|
    requires forall k :: 0 <= k < |order| ==> order[k] in s
    ensures CullOk(s, order, n, Culled(s, order[..n], needed, stuck))
  {
    if n > 0 {
      CulledKeeps(s, order, n - 1, needed, stuck);
      assert order[..n][..n - 1] == order[..n - 1];
      CullOneKeeps(s, order, n - 1, Culled(s, order[..n - 1], needed, stuck), stuck);
    }
  }

  lemma SameId(s: seq<Entry>, e: Entry)
    requires Distinct(s) && e in s
    ensures forall f :: f in s && f.id == e.id ==> f == e
  {
  }

  /** The loop has taken all it could of the first p of the order, and more than that only if it had to. */
  ghost predicate CutAt(order: seq<Entry>, n: nat, p: nat, c: Cull, needed: int, stuck: set<Bytes>)
    requires p <= n <= |order|
  {
    && (forall k :: 0 <= k < p ==> order[k].id in stuck || order[k] in c.removed)
    && (forall k :: 0 <= k < |c.removed| ==> c.removed[k] in order[..p])
    && (c.cleaned < needed ==> p == n)
    && (c.removed != [] ==> c.cleaned - Size(c.removed[|c.removed| - 1]) < needed)
  }

  lemma CutNext(order: seq<Entry>, n: nat, c: Cull, needed: int, stuck: set<Bytes>)
    requires n < |order| && CutAt(order, n, n, c, needed, stuck) && c.cleaned < needed
    ensures CutAt(order, n + 1, n + 1, CullOne(c, order[n], stuck), needed, stuck)
  {
    assert order[..n + 1] == order[..n] + [order[n]];
  }

  lemma {:induction false} WhereCut(s: seq<Entry>, order: seq<Entry>, n: nat, needed: int, stuck: set<Bytes>) returns (p: nat)
    requires n <= |order|
    ensures p <= n && CutAt(order, n, p, Culled(s, order[..n], needed, stuck), needed, stuck)
  {
    p := 0;
    if n > 0 {
      p := WhereCut(s, order, n - 1, needed, stuck);
      assert order[..n][..n - 1] == order[..n - 1];
      var c := Culled(s, order[..n - 1], needed, stuck);
      if c.cleaned < needed {
        CutNext(order, n - 1, c, needed, stuck);
        p := n;
      }
    }
  }

  /** Bytes cleaned are exactly the drop in size, and what is no longer there is what was removed. */
  lemma CullConserves(s: seq<Entry>, limit: Option<nat>, clock: Entry -> real, prioritised: set<Bytes>, stuck: set<Bytes>)
    requires Distinct(s)
    ensures var c := CullStore(s, limit, clock, prioritised, stuck);
            Distinct(c.store) && Total(c.store) + c.cleaned == Total(s) && Parted(s, c.store, c.removed)
  {
    if limit.Some? && Total(s) > limit.value {
      var order := Heaviest(s, clock, prioritised);
      OrderOf(s, clock, prioritised);
      CulledKeeps(s, order, |order|, Total(s) - limit.value, stuck);
      assert order[..|order|] == order;
    }
  }

  lemma OrderOf(s: seq<Entry>, clock: Entry -> real, prioritised: set<Bytes>)
    requires Distinct(s)
    ensures var order := Heaviest(s, clock, prioritised);
            && Distinct(order) && (forall k :: 0 <= k < |order| ==> order[k] in s)
            && (forall e :: e in s ==> e in order)
  {
    var key := (e: Entry) => -Weight(e, clock(e), prioritised);
    var order := Sorted(s, key);
    SortedDistinct(s, key);
    SortedMembers(s, key);
    forall k | 0 <= k < |order|
      ensures order[k] in s
    {
      assert order[k] in order;
    }
  }

  lemma OrderDescends(s: seq<Entry>, clock: Entry -> real, prioritised: set<Bytes>, i: nat, j: nat)
    requires i < j < |Heaviest(s, clock, prioritised)|
    ensures var order := Heaviest(s, clock, prioritised);
            Weight(order[i], clock(order[i]), prioritised) >= Weight(order[j], clock(order[j]), prioritised)
  {
    var key := (e: Entry) => -Weight(e, clock(e), prioritised);
    SortedIs(s, key);
    assert key(Sorted(s, key)[i]) <= key(Sorted(s, key)[j]);
  }

  /** Whatever is still there comes after the first p of the order, or could not be deleted. */
  ghost predicate Kept(order: seq<Entry>, p: nat, store: seq<Entry>, stuck: set<Bytes>)
    requires p <= |order|
  {
    forall k :: 0 <= k < |store| ==> store[k].id in stuck || store[k] in order[p..]
  }

  lemma KeptAfterCut(s: seq<Entry>, order: seq<Entry>, p: nat, c: Cull, needed: int, stuck: set<Bytes>)
    requires p <= |order| && CutAt(order, |order|, p, c, needed, stuck) && Parted(s, c.store, c.removed)
    requires forall e :: e in s ==> e in order
    ensures Kept(order, p, c.store, stuck)
  {
    forall k | 0 <= k < |c.store| && c.store[k].id !in stuck
      ensures c.store[k] in order[p..]
    {
      var e := c.store[k];
      assert e in c.store;
      var b :| 0 <= b < |order| && order[b] == e;
      assert !(b < p);
      assert order[p..][b - p] == e;
    }
  }

  /** The cull as a whole, its order and the place where it stopped. */
  lemma CullFacts(s: seq<Entry>, limit: nat, clock: Entry -> real, prioritised: set<Bytes>,
                  stuck: set<Bytes>) returns (order: seq<Entry>, p: nat)
    requires Distinct(s) && Total(s) > limit
    ensures order == Heaviest(s, clock, prioritised) && p <= |order|
    ensures var c := CullStore(s, Some(limit), clock, prioritised, stuck);
            CutAt(order, |order|, p, c, Total(s) - limit, stuck) && Kept(order, p, c.store, stuck)
  {
    order := Heaviest(s, clock, prioritised);
    OrderOf(s, clock, prioritised);
    CullConserves(s, Some(limit), clock, prioritised, stuck);
    assert order[..|order|] == order;
    p := WhereCut(s, order, |order|, Total(s) - limit, stuck);
    KeptAfterCut(s, order, p, CullStore(s, Some(limit), clock, prioritised, stuck), Total(s) - limit, stuck);
  }

  /** After a cull the store is within its limit, or something is left and all of it could not be deleted;
      and one removal fewer would have left the store over its limit. */
  lemma CullReachesLimit(s: seq<Entry>, limit: nat, clock: Entry -> real, prioritised: set<Bytes>, stuck: set<Bytes>)
    requires Distinct(s)
    ensures var c := CullStore(s, Some(limit), clock, prioritised, stuck);
            && (Total(c.store) <= limit || (c.store != [] && forall k :: 0 <= k < |c.store| ==> c.store[k].id in stuck))
            && (c.removed != [] ==> Total(c.store) + Size(c.removed[|c.removed| - 1]) > limit)
  {
    if Total(s) > limit {
      CullConserves(s, Some(limit), clock, prioritised, stuck);
      var order, p := CullFacts(s, limit, clock, prioritised, stuck);
    }
  }

  /** What a cull removes weighs at least as much as anything deletable it keeps. */
  lemma CullTakesHeaviest(s: seq<Entry>, limit: nat, clock: Entry -> real, prioritised: set<Bytes>, stuck: set<Bytes>, r: Entry, e: Entry)
    requires Distinct(s)
    requires r in CullStore(s, Some(limit), clock, prioritised, stuck).removed
    requires e in CullStore(s, Some(limit), clock, prioritised, stuck).store && e.id !in stuck
    ensures Weight(r, clock(r), prioritised) >= Weight(e, clock(e), prioritised)
  {
    var c := CullStore(s, Some(limit), clock, prioritised, stuck);
    var order, p := CullFacts(s, limit, clock, prioritised, stuck);
    var j :| 0 <= j < |c.store| && c.store[j] == e;
    var i :| 0 <= i < |c.removed| && c.removed[i] == r;
    var a :| 0 <= a < p && order[a] == r;
    var b :| p <= b < |order| && order[b] == e;
    OrderDescends(s, clock, prioritised, a, b);
  }

  // ---- cleaning ----

  const MESSAGE_EXPIRY: real := 2592000.0
  const HASH_SIZE: nat := 32

  /** The file name says no time, no stamp value, or no full hash. */
  predicate Misnamed(e: Entry) {
    e.value == 0 || e.received <= 0.0 || |e.id| != HASH_SIZE
  }

  predicate Expired(e: Entry, now: real) {
    Misnamed(e) || now > e.received + MESSAGE_EXPIRY
  }

  function ExpiredIds(s: seq<Entry>, now: real): seq<Bytes> {
    if s == [] then []
    else if Expired(s[|s| - 1], now) then ExpiredIds(s[..|s| - 1], now) + [s[|s| - 1].id]
    else ExpiredIds(s[..|s| - 1], now)
  }

  function PopAll(s: seq<Entry>, ids: seq<Bytes>): seq<Entry> {
    if ids == [] then s else Pop(PopAll(s, ids[..|ids| - 1]), ids[|ids| - 1])
  }

  /** The first half of clean_message_store: collect, then remove. */
  function Expire(s: seq<Entry>, now: real): seq<Entry> {
    PopAll(s, ExpiredIds(s, now))
  }

  /** clean_message_store */
  function CleanStore(s: seq<Entry>, limit: Option<nat>, now: real, clock: Entry -> real, prioritised: set<Bytes>,
                      stuck: set<Bytes>): Cull {
    CullStore(Expire(s, now), limit, clock, prioritised, stuck)
  }

  lemma {:induction false} ExpiredIdsAre(s: seq<Entry>, now: real)
    ensures forall k :: 0 <= k < |s| && Expired(s[k], now) ==> s[k].id in ExpiredIds(s, now)
    ensures forall id :: id in ExpiredIds(s, now) ==> exists k :: 0 <= k < |s| && s[k].id == id && Expired(s[k], now)
  {
    if s != [] {
      var r := s[..|s| - 1];
      ExpiredIdsAre(r, now);
      assert forall k :: 0 <= k < |r| ==> s[k] == r[k];
    }
  }

  lemma {:induction false} PopAllKeeps(s: seq<Entry>, ids: seq<Bytes>)
    requires Distinct(s)
    ensures Distinct(PopAll(s, ids))
    ensures forall e :: e in PopAll(s, ids) <==> e in s && e.id !in ids
  {
    if ids != [] {
      var r := ids[..|ids| - 1];
      PopAllKeeps(s, r);
      PopKeeps(PopAll(s, r), ids[|ids| - 1]);
      assert ids == r + [ids[|ids| - 1]];
    }
  }

  /** What goes is exactly what has expired or is misnamed. */
  lemma ExpireIs(s: seq<Entry>, now: real, e: Entry)
    requires Distinct(s) && e in s
    ensures Distinct(Expire(s, now)) && (e in Expire(s, now) <==> !Expired(e, now))
  {
    var ids := ExpiredIds(s, now);
    PopAllKeeps(s, ids);
    ExpiredIdsAre(s, now);
    var m :| 0 <= m < |s| && s[m] == e;
    if e.id in ids {
      var k :| 0 <= k < |s| && s[k].id == e.id && Expired(s[k], now);
      SameId(s, e);
      assert s[k] in s;
    }
  }

  /** After a cleaning an entry is still there if and only if it has not expired and was not culled; and the rest
      are within the limit unless none of them could be deleted. */
  lemma CleanedIs(s: seq<Entry>, limit: nat, now: real, clock: Entry -> real, prioritised: set<Bytes>, stuck: set<Bytes>, e: Entry)
    requires Distinct(s) && e in s
    ensures var c := CleanStore(s, Some(limit), now, clock, prioritised, stuck);
            && (e in c.store <==> !Expired(e, now) && e !in c.removed)
            && (Total(c.store) <= limit || (c.store != [] && forall k :: 0 <= k < |c.store| ==> c.store[k].id in stuck))
  {
    ExpireIs(s, now, e);
    CullConserves(Expire(s, now), Some(limit), clock, prioritised, stuck);
    CullReachesLimit(Expire(s, now), limit, clock, prioritised, stuck);
  }

  /** A message filed without a stamp value does not survive the next cleaning. */
  lemma UnvaluedIsCleaned(s: seq<Entry>, limit: Option<nat>, now: real, clock: Entry -> real,
                          prioritised: set<Bytes>, stuck: set<Bytes>, e: Entry)
    requires Distinct(s) && e in s && e.value == 0
    ensures e !in CleanStore(s, limit, now, clock, prioritised, stuck).store
  {
    ExpireIs(s, now, e);
    CullConserves(Expire(s, now), limit, clock, prioritised, stuck);
  }
}
