/** Message synchronisation between one propagation node and any number of clients, each of the Rust client's
    kind (host-client/src/main.rs) or of the reference kind (reference/LXMF/LXMRouter.py), over a network that
    loses, repeats and reorders requests and replies. */
module PropagationSync {
  import opened Prelude
  import opened LxmfMessage
  import opened PropagationStore

  const RUST_LIMIT: int := 1000000

  /** Full hashes have a fixed size. */
  ghost predicate FixedSize(h: Bytes -> Bytes) {
    forall x :: |h(x)| == HASH_SIZE
  }

  /** A client; `phase` is the Rust client's, the reference client knows what each reply answers. The ids it has are
      those of messages `learned` in other ways and of those `delivered` from downloads. `returned` and `hashed` are
      history: the messages the node has sent it, and what it has taken for messages. */
  datatype Client = Client(dst: Bytes, rust: bool, phase: nat, learned: set<Bytes>, delivered: set<Bytes>, retain: bool,
                           most: Option<nat>, limit: Option<int>, returned: set<Bytes>, hashed: set<Bytes>)

  function HadIds(c: Client): set<Bytes> {
    c.learned + c.delivered
  }

  /** Of a listing, what the reference client tells the node it has. */
  function Had(ids: seq<Bytes>, had: set<Bytes>): seq<Bytes> {
    if ids == [] then []
    else if ids[|ids| - 1] in had then Had(ids[..|ids| - 1], had) + [ids[|ids| - 1]]
    else Had(ids[..|ids| - 1], had)
  }

  /** The request that answers a listing. */
  function AfterListing(c: Client, ids: seq<Bytes>): Option<Request> {
    if ids == [] then None
    else if c.rust then Some(Request(Some(ids), Some([]), Some(RUST_LIMIT)))
    else Some(Request(Some(Wanted(ids, HadIds(c), c.most)), Some(if c.retain then [] else Had(ids, HadIds(c))), c.limit))
  }

  /** The request that confirms messages. */
  function AfterMessages(h: Bytes -> Bytes, blobs: seq<Bytes>): Option<Request> {
    if blobs == [] then None else Some(Request(None, Some(Map(h, blobs)), None))
  }

  /** What the client takes a reply for. */
  datatype Reading = AsListing | AsMessages | Ignored

  function Reads(c: Client, listing: bool): Reading {
    if c.rust then (if c.phase == 1 then AsListing else if c.phase == 2 then AsMessages else Ignored)
    else if listing then AsListing else AsMessages
  }

  function Respond(h: Bytes -> Bytes, c: Client, listing: bool, items: seq<Bytes>): Option<Request> {
    match Reads(c, listing)
    case AsListing => AfterListing(c, items)
    case AsMessages => AfterMessages(h, items)
    case Ignored => None
  }

  /** The ids of the items that are messages new to the client and open to it, which are those in `unsealed`. */
  function Opens(h: Bytes -> Bytes, items: seq<Bytes>, unsealed: set<Bytes>): set<Bytes> {
    set b | b in items && |b| >= LXMF_OVERHEAD && b in unsealed :: h(b)
  }

  /** The client after a reply. */
  function After(h: Bytes -> Bytes, c: Client, listing: bool, items: seq<Bytes>, unsealed: set<Bytes>): Client {
    match Reads(c, listing)
    case AsListing => c.(phase := if items == [] then 0 else 2)
    case AsMessages => c.(phase := 0, delivered := c.delivered + Opens(h, items, unsealed), hashed := c.hashed + set b | b in items)
    case Ignored => c
  }

  // ---- all together ----

  datatype Pending = Pending(client: nat, request: Request)
  datatype Reply = Reply(client: nat, listing: bool, items: seq<Bytes>)

  /** The node's store and the ids it has processed, the clients, and what is under way. */
  datatype System = System(store: seq<Entry>, processed: set<Bytes>, clients: seq<Client>, requests: seq<Pending>, replies: seq<Reply>)

  datatype Event =
    | Submit(data: Bytes, stamp: Bytes, value: nat, received: real)
    | Remove(id: Bytes)
    | Forget(id: Bytes)
    | Join(dst: Bytes, rust: bool, retain: bool, most: Option<nat>, limit: Option<int>)
    | Learn(client: nat, id: Bytes)
    | Begin(client: nat)
    | Reset(client: nat)
    | Serve(k: nat)
    | Receive(k: nat, unsealed: set<Bytes>)
    | DropRequest(k: nat) | RepeatRequest(k: nat)
    | DropReply(k: nat) | RepeatReply(k: nat)

  function Without<T>(s: seq<T>, k: nat): seq<T>
    requires k < |s|
  {
    s[..k] + s[k + 1..]
  }

  /** A message lxmf_propagation takes up: large enough, not in the store and not processed before. */
  predicate IsNew(h: Bytes -> Bytes, s: System, data: Bytes) {
    |data| >= LXMF_OVERHEAD && Find(s.store, h(data)).None? && h(data) !in s.processed
  }

  /** lxmf_propagation on the node: a new message is filed under its hash and destination. */
  function File(h: Bytes -> Bytes, s: System, data: Bytes, stamp: Bytes, value: nat, received: real): System {
    if IsNew(h, s, data) then
      s.(store := s.store + [Entry(h(data), data[..DESTINATION_LENGTH], data, stamp, value, received)],
         processed := s.processed + {h(data)})
    else s
  }

  function ServeNext(s: System, k: nat): System
    requires k < |s.requests| && s.requests[k].client < |s.clients|
  {
    var i, r := s.requests[k].client, s.requests[k].request;
    var c := s.clients[i];
    var items := Answer(s.store, c.dst, r);
    var c' := if IsListing(r) then c else c.(returned := c.returned + set b | b in items);
    System(StoreAfter(s.store, c.dst, r), s.processed, s.clients[i := c'], Without(s.requests, k), s.replies + [Reply(i, IsListing(r), items)])
  }

  function ReceiveNext(h: Bytes -> Bytes, s: System, k: nat, unsealed: set<Bytes>): System
    requires k < |s.replies| && s.replies[k].client < |s.clients|
  {
    var p := s.replies[k];
    var r := Respond(h, s.clients[p.client], p.listing, p.items);
    System(s.store, s.processed, s.clients[p.client := After(h, s.clients[p.client], p.listing, p.items, unsealed)],
           if r.Some? then s.requests + [Pending(p.client, r.value)] else s.requests, Without(s.replies, k))
  }

  function Step(h: Bytes -> Bytes, s: System, e: Event): System {
    match e
    case Submit(data, stamp, value, received) => File(h, s, data, stamp, value, received)
    case Remove(id) => s.(store := Pop(s.store, id))
    case Forget(id) => s.(processed := s.processed - {id})
    case Join(dst, rust, retain, most, limit) =>
      s.(clients := s.clients + [Client(dst, rust, 0, {}, {}, retain, most, limit, {}, {})])
    case Learn(i, id) =>
      if i < |s.clients| then s.(clients := s.clients[i := s.clients[i].(learned := s.clients[i].learned + {id})]) else s
    case Begin(i) =>
      if i < |s.clients| then
        s.(clients := s.clients[i := s.clients[i].(phase := 1)], requests := s.requests + [Pending(i, Request(None, None, None))])
      else s
    case Reset(i) => if i < |s.clients| then s.(clients := s.clients[i := s.clients[i].(phase := 0)]) else s
    case Serve(k) => if k < |s.requests| && s.requests[k].client < |s.clients| then ServeNext(s, k) else s
    case Receive(k, unsealed) =>
      if k < |s.replies| && s.replies[k].client < |s.clients| then ReceiveNext(h, s, k, unsealed) else s
    case DropRequest(k) => if k < |s.requests| then s.(requests := Without(s.requests, k)) else s
    case RepeatRequest(k) => if k < |s.requests| then s.(requests := s.requests + [s.requests[k]]) else s
    case DropReply(k) => if k < |s.replies| then s.(replies := Without(s.replies, k)) else s
    case RepeatReply(k) => if k < |s.replies| then s.(replies := s.replies + [s.replies[k]]) else s
  }

  function Run(h: Bytes -> Bytes, events: seq<Event>): System {
    if events == [] then System([], {}, [], [], [])
    else Step(h, Run(h, events[..|events| - 1]), events[|events| - 1])
  }

  // ---- invariant ----

  ghost predicate EntryOk(h: Bytes -> Bytes, e: Entry) {
    |e.data| >= LXMF_OVERHEAD && e.id == h(e.data) && e.dst == e.data[..DESTINATION_LENGTH]
  }

  ghost predicate StoreOk(h: Bytes -> Bytes, store: seq<Entry>) {
    Distinct(store) && forall e :: e in store ==> EntryOk(h, e)
  }

  /** The id is the hash of something the client took for a message. */
  ghost predicate Taken(h: Bytes -> Bytes, c: Client, id: Bytes) {
    exists b :: b in c.hashed && h(b) == id
  }

  /** What a client names as had is such a hash; only the reference client also names what it learned otherwise. */
  ghost predicate Told(h: Bytes -> Bytes, c: Client, id: Bytes) {
    (!c.rust && id in c.learned) || Taken(h, c, id)
  }

  ghost predicate AllTold(h: Bytes -> Bytes, c: Client, haves: seq<Bytes>) {
    forall k :: 0 <= k < |haves| ==> Told(h, c, haves[k])
  }

  /** A message the node has sent, or something of the size of an id. */
  ghost predicate Genuine(c: Client, b: Bytes) {
    b in c.returned || |b| == HASH_SIZE
  }

  ghost predicate ClientOk(h: Bytes -> Bytes, c: Client) {
    (forall b :: b in c.hashed ==> Genuine(c, b)) && forall id :: id in c.delivered ==> Taken(h, c, id)
  }

  ghost predicate RequestOk(h: Bytes -> Bytes, clients: seq<Client>, p: Pending) {
    p.client < |clients| && AllTold(h, clients[p.client], OrEmpty(p.request.haves))
  }

  ghost predicate ReplyOk(clients: seq<Client>, p: Reply) {
    p.client < |clients| && forall k :: 0 <= k < |p.items| ==> Genuine(clients[p.client], p.items[k])
  }

  ghost predicate Inv(h: Bytes -> Bytes, s: System) {
    && StoreOk(h, s.store)
    && (forall i :: 0 <= i < |s.clients| ==> ClientOk(h, s.clients[i]))
    && (forall k :: 0 <= k < |s.requests| ==> RequestOk(h, s.clients, s.requests[k]))
    && (forall k :: 0 <= k < |s.replies| ==> ReplyOk(s.clients, s.replies[k]))
  }

  /** Clients only ever learn. */
  ghost predicate Grows(a: Client, b: Client) {
    a.learned <= b.learned && a.returned <= b.returned && a.hashed <= b.hashed && a.dst == b.dst && a.rust == b.rust
  }

  ghost predicate AllGrow(a: seq<Client>, b: seq<Client>) {
    |a| <= |b| && forall i :: 0 <= i < |a| ==> Grows(a[i], b[i])
  }

  lemma StaysTold(h: Bytes -> Bytes, a: Client, b: Client, id: Bytes)
    requires Grows(a, b) && Told(h, a, id)
    ensures Told(h, b, id)
  {
  }

  /** A client that is sent more, or changes what the invariant does not speak of. */
  lemma StaysOk(h: Bytes -> Bytes, a: Client, b: Client)
    requires ClientOk(h, a) && Grows(a, b) && b.hashed == a.hashed && b.delivered == a.delivered
    ensures ClientOk(h, b)
  {
    forall x | x in b.hashed
      ensures Genuine(b, x)
    {
      assert Genuine(a, x);
    }
    forall id | id in b.delivered
      ensures Taken(h, b, id)
    {
      assert Taken(h, a, id);
    }
  }

  lemma RequestsStay(h: Bytes -> Bytes, a: seq<Client>, b: seq<Client>, p: Pending)
    requires AllGrow(a, b) && RequestOk(h, a, p)
    ensures RequestOk(h, b, p)
  {
    var haves := OrEmpty(p.request.haves);
    assert Grows(a[p.client], b[p.client]);
    forall k | 0 <= k < |haves|
      ensures Told(h, b[p.client], haves[k])
    {
      StaysTold(h, a[p.client], b[p.client], haves[k]);
    }
  }

  lemma RepliesStay(a: seq<Client>, b: seq<Client>, p: Reply)
    requires AllGrow(a, b) && ReplyOk(a, p)
    ensures ReplyOk(b, p)
  {
    assert Grows(a[p.client], b[p.client]);
    forall k | 0 <= k < |p.items|
      ensures Genuine(b[p.client], p.items[k])
    {
      assert Genuine(a[p.client], p.items[k]);
    }
  }

  /** Clients that learn, and requests and replies that were there before, keep the invariant. */
  lemma Rearranged(h: Bytes -> Bytes, s: System, t: System)
    requires Inv(h, s) && AllGrow(s.clients, t.clients) && StoreOk(h, t.store)
    requires forall i :: 0 <= i < |t.clients| ==> ClientOk(h, t.clients[i])
    requires forall k :: 0 <= k < |t.requests| ==> t.requests[k] in s.requests || RequestOk(h, t.clients, t.requests[k])
    requires forall k :: 0 <= k < |t.replies| ==> t.replies[k] in s.replies || ReplyOk(t.clients, t.replies[k])
    ensures Inv(h, t)
  {
    forall k | 0 <= k < |t.requests|
      ensures RequestOk(h, t.clients, t.requests[k])
    {
      if t.requests[k] in s.requests {
        var m :| 0 <= m < |s.requests| && s.requests[m] == t.requests[k];
        RequestsStay(h, s.clients, t.clients, s.requests[m]);
      }
    }
    forall k | 0 <= k < |t.replies|
      ensures ReplyOk(t.clients, t.replies[k])
    {
      if t.replies[k] in s.replies {
        var m :| 0 <= m < |s.replies| && s.replies[m] == t.replies[k];
        RepliesStay(s.clients, t.clients, s.replies[m]);
      }
    }
  }

  // ---- every step keeps it ----

  lemma {:induction false} FindNone(s: seq<Entry>, id: Bytes)
    requires Find(s, id).None?
    ensures forall k :: 0 <= k < |s| ==> s[k].id != id
  {
    if s != [] {
      FindNone(s[..|s| - 1], id);
    }
  }

  lemma FindAppended(s: seq<Entry>, e: Entry, id: Bytes)
    ensures Find(s + [e], id) == if id == e.id then Some(e) else Find(s, id)
  {
    assert (s + [e])[..|s + [e]| - 1] == s;
  }

  lemma AppendOk(h: Bytes -> Bytes, s: seq<Entry>, e: Entry)
    requires StoreOk(h, s) && EntryOk(h, e) && Find(s, e.id).None?
    ensures StoreOk(h, s + [e])
  {
    FindNone(s, e.id);
  }

  /** A new message can be found under its hash afterwards, with its destination and data; every other entry is found
      as before. */
  lemma FileOk(h: Bytes -> Bytes, s: System, data: Bytes, stamp: Bytes, value: nat, received: real)
    requires StoreOk(h, s.store)
    ensures var store := File(h, s, data, stamp, value, received).store;
            && StoreOk(h, store)
            && (forall id :: id != h(data) ==> Find(store, id) == Find(s.store, id))
            && var e := Find(store, h(data));
               if IsNew(h, s, data) then e.Some? && e.value.data == data && e.value.dst == data[..DESTINATION_LENGTH]
               else e == Find(s.store, h(data))
  {
    if IsNew(h, s, data) {
      var e := Entry(h(data), data[..DESTINATION_LENGTH], data, stamp, value, received);
      AppendOk(h, s.store, e);
      forall id
        ensures Find(s.store + [e], id) == if id == e.id then Some(e) else Find(s.store, id)
      {
        FindAppended(s.store, e, id);
      }
    }
  }

  lemma ListingIds(h: Bytes -> Bytes, s: seq<Entry>, dst: Bytes)
    requires FixedSize(h) && StoreOk(h, s)
    ensures forall k :: 0 <= k < |Listing(s, dst)| ==> |Listing(s, dst)[k]| == HASH_SIZE
  {
    var l := Sorted(For(s, dst), SizeKey);
    SortedMembers(For(s, dst), SizeKey);
    ForIs(s, dst);
    forall k | 0 <= k < |l|
      ensures |l[k].id| == HASH_SIZE
    {
      assert l[k] in l;
      assert EntryOk(h, l[k]);
    }
  }

  lemma ServeInv(h: Bytes -> Bytes, s: System, k: nat)
    requires FixedSize(h) && Inv(h, s) && k < |s.requests| && s.requests[k].client < |s.clients|
    ensures Inv(h, ServeNext(s, k))
  {
    var i, r := s.requests[k].client, s.requests[k].request;
    var t := ServeNext(s, k);
    PurgeIs(s.store, s.clients[i].dst, OrEmpty(r.haves));
    StaysOk(h, s.clients[i], t.clients[i]);
    if IsListing(r) {
      ListingIds(h, s.store, s.clients[i].dst);
    }
    assert ReplyOk(t.clients, Reply(i, IsListing(r), Answer(s.store, s.clients[i].dst, r)));
    Rearranged(h, s, t);
  }

  lemma {:induction false} HadIs(ids: seq<Bytes>, had: set<Bytes>)
    ensures forall k :: 0 <= k < |Had(ids, had)| ==> Had(ids, had)[k] in had
  {
    if ids != [] {
      HadIs(ids[..|ids| - 1], had);
    }
  }

  lemma RespondOk(h: Bytes -> Bytes, c: Client, listing: bool, items: seq<Bytes>, unsealed: set<Bytes>)
    requires ClientOk(h, c) && Respond(h, c, listing, items).Some?
    ensures AllTold(h, After(h, c, listing, items, unsealed), OrEmpty(Respond(h, c, listing, items).value.haves))
  {
    var c' := After(h, c, listing, items, unsealed);
    if Reads(c, listing).AsMessages? {
      var hs := Map(h, items);
      forall k | 0 <= k < |hs|
        ensures Told(h, c', hs[k])
      {
        assert items[k] in c'.hashed && h(items[k]) == hs[k];
      }
    } else if !c.rust {
      var ids := Had(items, HadIds(c));
      HadIs(items, HadIds(c));
      forall k | 0 <= k < |ids|
        ensures Told(h, c', ids[k])
      {
        assert ids[k] in c.learned || Taken(h, c, ids[k]);
      }
    }
  }

  lemma AfterOk(h: Bytes -> Bytes, c: Client, listing: bool, items: seq<Bytes>, unsealed: set<Bytes>)
    requires ClientOk(h, c) && forall k :: 0 <= k < |items| ==> Genuine(c, items[k])
    ensures var c' := After(h, c, listing, items, unsealed); ClientOk(h, c') && Grows(c, c')
  {
    var c' := After(h, c, listing, items, unsealed);
    if !Reads(c, listing).AsMessages? {
      StaysOk(h, c, c');
    } else {
      forall b | b in c'.hashed
        ensures Genuine(c', b)
      {
        if b in c.hashed {
          assert Genuine(c, b);
        } else {
          var k :| 0 <= k < |items| && items[k] == b;
          assert Genuine(c, items[k]);
        }
      }
      forall id | id in c'.delivered
        ensures Taken(h, c', id)
      {
        if id in c.delivered {
          assert Taken(h, c, id);
        } else {
          var b :| b in items && h(b) == id;
          assert b in c'.hashed;
        }
      }
    }
  }

  lemma ReceiveInv(h: Bytes -> Bytes, s: System, k: nat, unsealed: set<Bytes>)
    requires Inv(h, s) && k < |s.replies| && s.replies[k].client < |s.clients|
    ensures Inv(h, ReceiveNext(h, s, k, unsealed))
  {
    var p := s.replies[k];
    var c := s.clients[p.client];
    assert ReplyOk(s.clients, p) && ClientOk(h, c);
    AfterOk(h, c, p.listing, p.items, unsealed);
    var t := ReceiveNext(h, s, k, unsealed);
    var r := Respond(h, c, p.listing, p.items);
    if r.Some? {
      RespondOk(h, c, p.listing, p.items, unsealed);
      assert RequestOk(h, t.clients, Pending(p.client, r.value));
    }
    Rearranged(h, s, t);
  }

  lemma ClientChanges(h: Bytes -> Bytes, s: System, i: nat, c: Client, more: seq<Pending>)
    requires Inv(h, s) && i < |s.clients| && Grows(s.clients[i], c) && ClientOk(h, c)
    requires forall k :: 0 <= k < |more| ==> more[k].client == i && more[k].request.haves.None?
    ensures Inv(h, s.(clients := s.clients[i := c], requests := s.requests + more))
  {
    Rearranged(h, s, s.(clients := s.clients[i := c], requests := s.requests + more));
  }

  lemma RequestsInv(h: Bytes -> Bytes, s: System, e: Event)
    requires Inv(h, s) && (e.DropRequest? || e.RepeatRequest?)
    ensures Inv(h, Step(h, s, e))
  {
    Rearranged(h, s, Step(h, s, e));
  }

  lemma RepliesInv(h: Bytes -> Bytes, s: System, e: Event)
    requires Inv(h, s) && (e.DropReply? || e.RepeatReply?)
    ensures Inv(h, Step(h, s, e))
  {
    Rearranged(h, s, Step(h, s, e));
  }

  lemma NodeInv(h: Bytes -> Bytes, s: System, e: Event)
    requires Inv(h, s) && (e.Submit? || e.Remove? || e.Forget? || e.Join?)
    ensures Inv(h, Step(h, s, e))
  {
    match e {
      case Submit(data, stamp, value, received) => FileOk(h, s, data, stamp, value, received);
      case Remove(id) => PopKeeps(s.store, id);
      case _ =>
    }
    Rearranged(h, s, Step(h, s, e));
  }

  lemma ClientInv(h: Bytes -> Bytes, s: System, e: Event)
    requires Inv(h, s) && (e.Learn? || e.Begin? || e.Reset?) && e.client < |s.clients|
    ensures Inv(h, Step(h, s, e))
  {
    var c := s.clients[e.client];
    match e
    case Learn(i, id) =>
      StaysOk(h, c, c.(learned := c.learned + {id}));
      ClientChanges(h, s, i, c.(learned := c.learned + {id}), []);
      assert s.requests + [] == s.requests;
    case Begin(i) =>
      StaysOk(h, c, c.(phase := 1));
      ClientChanges(h, s, i, c.(phase := 1), [Pending(i, Request(None, None, None))]);
    case Reset(i) =>
      StaysOk(h, c, c.(phase := 0));
      ClientChanges(h, s, i, c.(phase := 0), []);
      assert s.requests + [] == s.requests;
  }

  lemma StepInv(h: Bytes -> Bytes, s: System, e: Event)
    requires FixedSize(h) && Inv(h, s)
    ensures Inv(h, Step(h, s, e))
  {
    if e.Serve? {
      if e.k < |s.requests| && s.requests[e.k].client < |s.clients| {
        ServeInv(h, s, e.k);
      }
    } else if e.Receive? {
      if e.k < |s.replies| && s.replies[e.k].client < |s.clients| {
        ReceiveInv(h, s, e.k, e.unsealed);
      }
    } else if e.Learn? || e.Begin? || e.Reset? {
      if e.client < |s.clients| {
        ClientInv(h, s, e);
      }
    } else if e.DropRequest? || e.RepeatRequest? {
      RequestsInv(h, s, e);
    } else if e.DropReply? || e.RepeatReply? {
      RepliesInv(h, s, e);
    } else {
      NodeInv(h, s, e);
    }
  }

  lemma {:induction false} RunInv(h: Bytes -> Bytes, events: seq<Event>)
    requires FixedSize(h)
    ensures Inv(h, Run(h, events))
  {
    if events != [] {
      RunInv(h, events[..|events| - 1]);
      StepInv(h, Run(h, events[..|events| - 1]), events[|events| - 1]);
    }
  }

  // ---- what every run keeps ----

  /** The client was sent exactly the bytes of this message, or took something else for a message that has the same
      hash, which is exhibited; or, the reference client only, it learned of the message in another way. */
  ghost predicate Accounted(h: Bytes -> Bytes, c: Client, e: Entry) {
    || e.data in c.returned
    || (exists b :: b in c.hashed && b != e.data && h(b) == h(e.data))
    || (!c.rust && e.id in c.learned)
  }

  /** Whatever a request removes from the store belongs to the client that sent it and is accounted for, however
      many clients there are and whatever replies were stale, repeated or out of turn. */
  lemma PurgeSafeInEveryRun(h: Bytes -> Bytes, events: seq<Event>, k: nat, e: Entry)
    requires FixedSize(h)
    requires k < |Run(h, events).requests| && Run(h, events).requests[k].client < |Run(h, events).clients|
    requires e in Run(h, events).store && e !in Step(h, Run(h, events), Serve(k)).store
    ensures var c := Run(h, events).clients[Run(h, events).requests[k].client];
            e.dst == c.dst && Accounted(h, c, e)
  {
    RunInv(h, events);
    var s := Run(h, events);
    var i, r := s.requests[k].client, s.requests[k].request;
    var c, haves := s.clients[i], OrEmpty(r.haves);
    PurgeIs(s.store, c.dst, haves);
    var m :| 0 <= m < |haves| && haves[m] == e.id;
    assert RequestOk(h, s.clients, s.requests[k]) && Told(h, c, haves[m]) && ClientOk(h, c);
    assert EntryOk(h, e);
    if Taken(h, c, e.id) {
      var b :| b in c.hashed && h(b) == e.id;
      assert Genuine(c, b);
    }
  }

  /** A listing names exactly the client's messages, and a download returns only such messages that it wants. */
  lemma AnswersOnlyOwn(s: seq<Entry>, dst: Bytes, r: Request, x: Bytes)
    ensures IsListing(r) ==> (x in Answer(s, dst, r) <==> exists e :: e in s && e.dst == dst && e.id == x)
    ensures !IsListing(r) && x in Answer(s, dst, r) ==>
              exists e :: e in StoreAfter(s, dst, r) && e.dst == dst && e.id in OrEmpty(r.wants) && Blob(e) == x
  {
    if IsListing(r) {
      var l := Sorted(For(s, dst), SizeKey);
      SortedMembers(For(s, dst), SizeKey);
      ForIs(s, dst);
      if x in Answer(s, dst, r) {
        var k :| 0 <= k < |l| && l[k].id == x;
        assert l[k] in l;
      }
      if e :| e in s && e.dst == dst && e.id == x {
        assert e in l;
        var k :| 0 <= k < |l| && l[k] == e;
        assert Answer(s, dst, r)[k] == x;
      }
    } else if x in Answer(s, dst, r) {
      var d := Sent(s, dst, r);
      ChosenAre(StoreAfter(s, dst, r), dst, OrEmpty(r.wants), r.limit);
      var k :| 0 <= k < |d| && Blob(d[k]) == x;
    }
  }

  /** The hash a client confirms is the id of the entry if and only if the stamp has the fixed size, unless the
      shortened blob and the message collide. */
  lemma ConfirmsIds(h: Bytes -> Bytes, s: seq<Entry>, dst: Bytes, r: Request, k: nat)
    requires StoreOk(h, s) && !IsListing(r) && k < |Sent(s, dst, r)|
    ensures k < |Answer(s, dst, r)|
    ensures var e := Sent(s, dst, r)[k];
            var b := Answer(s, dst, r)[k];
            (Map(h, Answer(s, dst, r))[k] == e.id <==> |e.stamp| == STAMP_SIZE) || (b != e.data && h(b) == h(e.data))
  {
    var e := Sent(s, dst, r)[k];
    PurgeIs(s, dst, OrEmpty(r.haves));
    ChosenAre(StoreAfter(s, dst, r), dst, OrEmpty(r.wants), r.limit);
    assert EntryOk(h, e);
    BlobIsMessage(e);
  }

  /** Some of these entries has this id. */
  ghost predicate Names(sent: seq<Entry>, id: Bytes) {
    exists k :: 0 <= k < |sent| && sent[k].id == id
  }

  lemma ConfirmsAreIds(h: Bytes -> Bytes, t: seq<Entry>, dst: Bytes, r: Request, id: Bytes)
    requires StoreOk(h, t) && !IsListing(r)
    requires forall f :: f in t && f.dst == dst ==> |f.stamp| == STAMP_SIZE
    ensures id in Map(h, Answer(t, dst, r)) <==> Names(Sent(t, dst, r), id)
  {
    var sent, confirms := Sent(t, dst, r), Map(h, Answer(t, dst, r));
    PurgeIs(t, dst, OrEmpty(r.haves));
    ChosenAre(StoreAfter(t, dst, r), dst, OrEmpty(r.wants), r.limit);
    forall k | 0 <= k < |sent|
      ensures confirms[k] == sent[k].id
    {
      assert EntryOk(h, sent[k]);
      BlobIsMessage(sent[k]);
    }
    if id in confirms {
      var k :| 0 <= k < |confirms| && confirms[k] == id;
      assert sent[k].id == id;
    }
    if Names(sent, id) {
      var k :| 0 <= k < |sent| && sent[k].id == id;
      assert confirms[k] == id;
    }
  }

  /** A download from store t and its confirmation, when the store has become u: an entry of u is removed if and only
      if it is the client's and an entry with its id was sent; and then its very bytes were sent, or the two collide. */
  lemma ConfirmRemovesSent(h: Bytes -> Bytes, t: seq<Entry>, u: seq<Entry>, dst: Bytes, r: Request, e: Entry)
    requires StoreOk(h, t) && StoreOk(h, u) && !IsListing(r) && e in u
    requires forall f :: f in t && f.dst == dst ==> |f.stamp| == STAMP_SIZE
    requires AfterMessages(h, Answer(t, dst, r)).Some?
    ensures var sent := Sent(t, dst, r);
            && (e in StoreAfter(u, dst, AfterMessages(h, Answer(t, dst, r)).value) <==> !(e.dst == dst && Names(sent, e.id)))
            && (Names(sent, e.id) ==> e.data in Answer(t, dst, r)
                                      || exists k :: 0 <= k < |sent| && sent[k].data != e.data && h(sent[k].data) == h(e.data))
  {
    var sent, confirms := Sent(t, dst, r), Map(h, Answer(t, dst, r));
    PurgeIs(u, dst, confirms);
    ConfirmsAreIds(h, t, dst, r, e.id);
    if Names(sent, e.id) {
      var k :| 0 <= k < |sent| && sent[k].id == e.id;
      PurgeIs(t, dst, OrEmpty(r.haves));
      ChosenAre(StoreAfter(t, dst, r), dst, OrEmpty(r.wants), r.limit);
      assert EntryOk(h, sent[k]) && EntryOk(h, e);
      BlobIsMessage(sent[k]);
      assert Answer(t, dst, r)[k] == sent[k].data;
    }
  }

  /** A whole session of the Rust client in any run, its listing, download and confirmation served at three points
      with anything happening between: of what is in the store at the end, exactly the client's messages whose ids
      it was sent are gone afterwards, and everything else stays. */
  lemma RustSession(h: Bytes -> Bytes, events: seq<Event>, l: nat, m: nat, n: nat, c: Client, e: Entry)
    requires FixedSize(h) && l <= m <= n <= |events| && c.rust && e in Run(h, events[..n]).store
    requires forall f :: f in Run(h, events[..m]).store && f.dst == c.dst ==> |f.stamp| == STAMP_SIZE
    ensures var get := AfterListing(c, Listing(Run(h, events[..l]).store, c.dst));
            get.Some? ==>
              var t, u := Run(h, events[..m]).store, Run(h, events[..n]).store;
              var sent, confirm := Sent(t, c.dst, get.value), AfterMessages(h, Answer(t, c.dst, get.value));
              if confirm.None? then sent == []
              else e in StoreAfter(u, c.dst, confirm.value) <==> !(e.dst == c.dst && Names(sent, e.id))
  {
    RunInv(h, events[..m]);
    RunInv(h, events[..n]);
    var get := AfterListing(c, Listing(Run(h, events[..l]).store, c.dst));
    var t, u := Run(h, events[..m]).store, Run(h, events[..n]).store;
    if get.Some? && AfterMessages(h, Answer(t, c.dst, get.value)).Some? {
      ConfirmRemovesSent(h, t, u, c.dst, get.value, e);
    }
  }
}
