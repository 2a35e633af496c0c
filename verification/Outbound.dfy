/** Delivery attempts of one outbound message (reference/LXMF/LXMRouter.py), for every schedule of processing
    times, path knowledge and link states. */
module Outbound {
  import opened Prelude

  const MAX_DELIVERY_ATTEMPTS: nat := 5
  const MAX_PATHLESS_TRIES: nat := 1
  const DELIVERY_RETRY_WAIT: real := 10.0
  const PATH_REQUEST_WAIT: real := 7.0

  datatype Route = Opportunistic | Direct | Propagated

  /** The link to the destination, or to the propagation node, as the router finds it. */
  datatype Link = NoLink | Waiting | Active | Closed

  datatype State = Queued | Sending | Sent | Delivered | Rejected | Cancelled | Failed

  /** A message, whether it has left the queue, and how many of its transmissions have had no outcome yet. `sends` and
      `links` are history: the counter at each transmission, and at each link opened for it. */
  datatype Message = Message(route: Route, state: State, removed: bool, attempts: nat, next: Option<real>,
                             open: nat, sends: seq<nat>, links: seq<nat>)

  /** What process_outbound finds: the time, whether a path is known, the link, and whether a propagation node is set. */
  datatype View = View(now: real, path: bool, link: Link, node: bool)

  /** A turn of process_outbound, or what happens meanwhile: the outcome of a transmission, which is proved, given up or
      comes to nothing; the message refused by its receiver, or withdrawn by its sender. */
  datatype Event = Process(view: View) | Proved | GivenUp | Lapsed | Refused | Withdrawn

  predicate Due(m: Message, now: real) {
    m.next.None? || now > m.next.value
  }

  function Postpone(m: Message, until: real): Message {
    m.(attempts := m.attempts + 1, next := Some(until))
  }

  function Transmit(m: Message): Message {
    m.(open := m.open + 1, sends := m.sends + [m.attempts])
  }

  /** fail_message */
  function Fail(m: Message): Message {
    m.(state := Failed, removed := true)
  }

  function ProcessOpportunistic(m: Message, v: View): Message {
    if m.attempts > MAX_DELIVERY_ATTEMPTS then Fail(m)
    else if m.attempts >= MAX_PATHLESS_TRIES && !v.path then Postpone(m, v.now + PATH_REQUEST_WAIT)
    else if m.attempts == MAX_PATHLESS_TRIES + 1 && v.path then Postpone(m, v.now + PATH_REQUEST_WAIT)
    else if Due(m, v.now) then Postpone(Transmit(m).(state := Sent), v.now + DELIVERY_RETRY_WAIT)
    else m
  }

  /** No link yet: count the attempt, and open one while attempts and a path are left. */
  function TryLink(m: Message, v: View): Message {
    if !Due(m, v.now) then m
    else
      var counted := Postpone(m, v.now + DELIVERY_RETRY_WAIT);
      if counted.attempts >= MAX_DELIVERY_ATTEMPTS then counted
      else if v.path then counted.(links := m.links + [counted.attempts])
      else counted.(next := Some(v.now + PATH_REQUEST_WAIT))
  }

  function ProcessOverLink(m: Message, v: View): Message {
    if m.attempts > MAX_DELIVERY_ATTEMPTS then Fail(m)
    else
      match v.link
      case Active => if m.state.Sending? then m else Transmit(m).(state := Sending)
      case Closed => m.(next := Some(v.now + DELIVERY_RETRY_WAIT))
      case Waiting => m
      case NoLink => TryLink(m, v)
  }

  /** The states in which a turn takes the message off the queue; what has been propagated counts as sent. */
  predicate Settled(m: Message) {
    m.state.Delivered? || m.state.Rejected? || m.state.Cancelled? || (m.route.Propagated? && m.state.Sent?)
  }

  function Turn(m: Message, v: View): Message {
    if m.route.Opportunistic? then ProcessOpportunistic(m, v)
    else if m.route.Propagated? && !v.node then Fail(m)
    else ProcessOverLink(m, v)
  }

  /** The callbacks of a transmission set the state whatever it is, on or off the queue, except that giving up spares a
      withdrawn message; opportunistic packets have no such callback. A node's refusal and a withdrawal look for the
      message in the queue. */
  function Step(m: Message, e: Event): Message {
    match e
    case Process(v) => if m.removed then m else if Settled(m) then m.(removed := true) else Turn(m, v)
    case Proved =>
      if m.open == 0 then m else m.(open := m.open - 1, state := if m.route.Propagated? then Sent else Delivered)
    case GivenUp =>
      if m.open == 0 || m.route.Opportunistic? then m
      else m.(open := m.open - 1, state := if m.state.Cancelled? then Cancelled else Queued)
    case Lapsed => if m.open == 0 then m else m.(open := m.open - 1)
    case Refused =>
      if m.route.Direct? && m.open > 0 then m.(open := m.open - 1, state := Rejected)
      else if m.route.Propagated? && !m.removed then m.(state := Rejected)
      else m
    case Withdrawn => if m.removed then m else m.(state := Cancelled)
  }

  /** A message as handle_outbound queues it; the first attempt waits where a path had to be requested. */
  function Fresh(route: Route, next: Option<real>): Message {
    Message(route, Queued, false, 0, next, 0, [], [])
  }

  function Run(m: Message, events: seq<Event>): Message {
    if events == [] then m else Step(Run(m, events[..|events| - 1]), events[|events| - 1])
  }

  // ---- bounds ----

  /** The counters at transmission are ascending and below the present one. */
  ghost predicate Counted(s: seq<nat>, attempts: nat) {
    && (forall i, j :: 0 <= i < j < |s| ==> s[i] < s[j])
    && (forall i :: 0 <= i < |s| ==> s[i] < attempts)
  }

  ghost predicate Inv(m: Message) {
    && m.attempts <= MAX_DELIVERY_ATTEMPTS + 1 && (m.state.Failed? ==> m.removed)
    && m.open <= |m.sends|
    && (m.route.Opportunistic? ==> Counted(m.sends, m.attempts) && 2 !in m.sends && m.links == [])
    && (forall i, j :: 0 <= i < j < |m.links| ==> m.links[i] < m.links[j])
    && (forall i :: 0 <= i < |m.links| ==> 0 < m.links[i] <= m.attempts && m.links[i] < MAX_DELIVERY_ATTEMPTS)
  }

  lemma TurnInv(m: Message, v: View)
    requires Inv(m) && !m.removed && !Settled(m)
    ensures Inv(Turn(m, v))
  {
    if m.route.Opportunistic? {
      assert Inv(ProcessOpportunistic(m, v));
    } else {
      assert Inv(ProcessOverLink(m, v)) && Inv(Fail(m));
    }
  }

  lemma StepInv(m: Message, e: Event)
    requires Inv(m)
    ensures Inv(Step(m, e))
  {
    if e.Process? && !m.removed && !Settled(m) {
      TurnInv(m, e.view);
    }
  }

  lemma {:induction false} RunInv(route: Route, next: Option<real>, events: seq<Event>)
    ensures Inv(Run(Fresh(route, next), events)) && Run(Fresh(route, next), events).route == route
  {
    if events != [] {
      RunInv(route, next, events[..|events| - 1]);
      StepInv(Run(Fresh(route, next), events[..|events| - 1]), events[|events| - 1]);
    }
  }

  /** Ascending numbers from lo below hi are at most hi - lo. */
  lemma {:induction false} FewBetween(s: seq<nat>, lo: nat, hi: nat)
    requires lo <= hi
    requires forall i, j :: 0 <= i < j < |s| ==> s[i] < s[j]
    requires forall i :: 0 <= i < |s| ==> lo <= s[i] < hi
    ensures |s| <= hi - lo
    decreases hi - lo
  {
    if s != [] {
      var last := s[|s| - 1];
      FewBetween(s[..|s| - 1], lo, last);
    }
  }

  lemma FewWithout(s: seq<nat>, gap: nat, hi: nat)
    requires gap < hi
    requires forall i, j :: 0 <= i < j < |s| ==> s[i] < s[j]
    requires forall i :: 0 <= i < |s| ==> s[i] < hi && s[i] != gap
    ensures |s| <= hi - 1
  {
    var below := Below(s, gap);
    FewBetween(s[..below], 0, gap);
    FewBetween(s[below..], gap + 1, hi);
  }

  lemma {:induction false} Below(s: seq<nat>, gap: nat) returns (below: nat)
    requires forall i, j :: 0 <= i < j < |s| ==> s[i] < s[j]
    requires forall i :: 0 <= i < |s| ==> s[i] != gap
    ensures below <= |s| && (forall i :: 0 <= i < below ==> s[i] < gap) && (forall i :: below <= i < |s| ==> s[i] > gap)
  {
    below := |s|;
    while below > 0 && s[below - 1] > gap
      invariant below <= |s|
      invariant forall i :: below <= i < |s| ==> s[i] > gap
    {
      below := below - 1;
    }
  }

  /** In every schedule an opportunistic message is transmitted at most five times and never while its counter
      is 2, a message over links has at most four links opened for it, and no counter goes beyond six. */
  lemma BoundedInEveryRun(route: Route, next: Option<real>, events: seq<Event>)
    ensures var m := Run(Fresh(route, next), events);
            && m.attempts <= 6 && |m.links| <= 4
            && (route.Opportunistic? ==> |m.sends| <= 5 && 2 !in m.sends && m.links == [])
  {
    RunInv(route, next, events);
    var m := Run(Fresh(route, next), events);
    FewBetween(m.links, 1, 5);
    if route.Opportunistic? {
      FewWithout(m.sends, 2, 6);
    }
  }

  // ---- ending ----

  /** A turn either leaves the counter or moves it on by one. A message leaves the queue exactly when it is settled, its
      counter has passed the maximum, or it is to be propagated and there is no node; and it fails exactly in the
      last two cases, unless it is settled. */
  lemma TurnCounts(m: Message, v: View)
    requires Inv(m) && !m.removed
    ensures var n := Step(m, Process(v));
            && m.attempts <= n.attempts <= m.attempts + 1
            && (n.removed <==> Settled(m) || m.attempts == 6 || (m.route.Propagated? && !v.node))
            && (n.state.Failed? <==> n.removed && !Settled(m))
            && (Settled(m) ==> n == m.(removed := true))
  {
  }

  /** The message has to wait for a retry time or a link. */
  predicate Idle(m: Message, v: View) {
    if m.route.Opportunistic? then
      !Due(m, v.now) && (m.attempts < MAX_PATHLESS_TRIES || (v.path && m.attempts != MAX_PATHLESS_TRIES + 1))
    else !v.link.NoLink? || !Due(m, v.now)
  }

  predicate HasTurn(m: Message, v: View) {
    !m.removed && (Settled(m) || !Idle(m, v))
  }

  /** The turns at which the message was in the queue and had nothing to wait for. */
  function Turns(m: Message, events: seq<Event>): nat {
    if events == [] then 0
    else
      var before := events[..|events| - 1];
      var e := events[|events| - 1];
      Turns(m, before) + if e.Process? && HasTurn(Run(m, before), e.view) then 1 else 0
  }

  lemma {:induction false} TurnsCounted(route: Route, next: Option<real>, events: seq<Event>)
    ensures var m := Run(Fresh(route, next), events);
            Turns(Fresh(route, next), events) <= m.attempts + if m.removed then 1 else 0
  {
    if events != [] {
      TurnsCounted(route, next, events[..|events| - 1]);
      RunInv(route, next, events[..|events| - 1]);
    }
  }

  /** Six minus the counter measures what is left: after seven turns with nothing to wait for, a message has left the
      queue. */
  lemma EndsInEveryRun(route: Route, next: Option<real>, events: seq<Event>)
    requires Turns(Fresh(route, next), events) >= 7
    ensures Run(Fresh(route, next), events).removed
  {
    TurnsCounted(route, next, events);
    RunInv(route, next, events);
  }

  // ---- after the end ----

  lemma {:induction false} RunAppend(m: Message, a: seq<Event>, b: seq<Event>)
    ensures Run(m, a + b) == Run(Run(m, a), b)
  {
    if b == [] {
      assert a + b == a;
    } else {
      var last := b[|b| - 1];
      RunAppend(m, a, b[..|b| - 1]);
      assert (a + b)[..|a + b| - 1] == a + b[..|b| - 1];
    }
  }

  /** Once off the queue a message stays off, is not transmitted again, and has no link opened for it; only its state
      and the number of outcomes to come can still change. */
  lemma {:induction false} RemovedStays(m: Message, more: seq<Event>)
    requires m.removed
    ensures var n := Run(m, more); n == m.(state := n.state, open := n.open) && n.open <= m.open
  {
    if more != [] {
      RemovedStays(m, more[..|more| - 1]);
    }
  }

  /** No outcome of a transmission is left to come; or the message is opportunistic and delivered, and a further proof
      would say the same. */
  predicate Final(m: Message) {
    m.open == 0 || (m.route.Opportunistic? && m.state.Delivered?)
  }

  lemma {:induction false} FinalStays(m: Message, more: seq<Event>)
    requires m.removed && Final(m)
    ensures var n := Run(m, more); n.removed && n.route == m.route && Final(n) && n.state == m.state
  {
    if more != [] {
      FinalStays(m, more[..|more| - 1]);
    }
  }

  /** An event that changes the state of a message which is not final. */
  function Upset(m: Message): Event {
    if m.state == (if m.route.Propagated? then Sent else Delivered) then GivenUp else Proved
  }

  lemma UpsetChanges(m: Message)
    requires m.removed && !Final(m)
    ensures Run(m, [Upset(m)]).state != m.state
  {
    assert [Upset(m)][..0] == [];
    assert Run(m, []) == m;
  }

  /** The state of a message that has left the queue is settled for good if and only if it is final: otherwise an
      outcome still to come can overturn it. */
  lemma FinalExactly(m: Message)
    requires m.removed
    ensures (forall more :: Run(m, more).state == m.state) <==> Final(m)
  {
    if Final(m) {
      forall more
        ensures Run(m, more).state == m.state
      {
        FinalStays(m, more);
      }
    } else {
      UpsetChanges(m);
    }
  }

  /** So it is in every run: a message once off the queue is never touched by it again, and keeps its state in every
      continuation exactly when no outcome that could change it is to come. */
  lemma LeavesForGoodInEveryRun(route: Route, next: Option<real>, events: seq<Event>, more: seq<Event>)
    requires Run(Fresh(route, next), events).removed
    ensures var m, n := Run(Fresh(route, next), events), Run(Fresh(route, next), events + more);
            n == m.(state := n.state, open := n.open) && (Final(m) ==> n.state == m.state)
    ensures var m := Run(Fresh(route, next), events);
            (forall rest :: Run(m, rest).state == m.state) <==> Final(m)
  {
    var m := Run(Fresh(route, next), events);
    RunAppend(Fresh(route, next), events, more);
    RemovedStays(m, more);
    FinalExactly(m);
  }

  // ---- the bounds are met ----

  lemma RunSnoc(m: Message, events: seq<Event>, e: Event)
    ensures Run(m, events + [e]) == Step(Run(m, events), e)
  {
    assert (events + [e])[..|events + [e]| - 1] == events;
  }

  /** Turns far enough apart, with a path known and no link up. */
  function Spacing(k: nat): Event {
    Process(View(20.0 * (k as real), true, NoLink, true))
  }

  function Spaced(n: nat): seq<Event> {
    if n == 0 then [] else Spaced(n - 1) + [Spacing(n)]
  }

  lemma {:induction false} SpacedTurn(route: Route, n: nat)
    requires n > 0
    ensures Run(Fresh(route, None), Spaced(n)) == Step(Run(Fresh(route, None), Spaced(n - 1)), Spacing(n))
  {
    RunSnoc(Fresh(route, None), Spaced(n - 1), Spacing(n));
  }

  function SendsAfter(n: nat): seq<nat> {
    if n == 0 then [] else if n == 1 then [0] else if n <= 3 then [0, 1]
    else if n == 4 then [0, 1, 3] else if n == 5 then [0, 1, 3, 4] else [0, 1, 3, 4, 5]
  }

  function LinksAfter(n: nat): seq<nat> {
    if n == 0 then [] else if n == 1 then [1] else if n == 2 then [1, 2] else if n == 3 then [1, 2, 3] else [1, 2, 3, 4]
  }

  function RetryAfter(n: nat, wait: real): Option<real> {
    if n == 0 then None else Some(20.0 * (n as real) + wait)
  }

  function OpportunisticAfter(n: nat): Message {
    Message(Opportunistic, if n == 0 then Queued else Sent, false, n,
            RetryAfter(n, if n == 3 then PATH_REQUEST_WAIT else DELIVERY_RETRY_WAIT),
            |SendsAfter(n)|, SendsAfter(n), [])
  }

  function DirectAfter(n: nat): Message {
    Message(Direct, Queued, false, n, RetryAfter(n, DELIVERY_RETRY_WAIT), 0, [], LinksAfter(n))
  }

  lemma OpportunisticTurn(n: nat)
    requires n < 6
    ensures Step(OpportunisticAfter(n), Spacing(n + 1)) == OpportunisticAfter(n + 1)
  {
  }

  lemma DirectTurn(n: nat)
    requires n < 4
    ensures Step(DirectAfter(n), Spacing(n + 1)) == DirectAfter(n + 1)
  {
  }

  lemma {:induction false} OpportunisticTurns(n: nat)
    requires n <= 6
    ensures Run(Fresh(Opportunistic, None), Spaced(n)) == OpportunisticAfter(n)
  {
    if n > 0 {
      OpportunisticTurns(n - 1);
      SpacedTurn(Opportunistic, n);
      OpportunisticTurn(n - 1);
    }
  }

  lemma {:induction false} DirectTurns(n: nat)
    requires n <= 4
    ensures Run(Fresh(Direct, None), Spaced(n)) == DirectAfter(n)
  {
    if n > 0 {
      DirectTurns(n - 1);
      SpacedTurn(Direct, n);
      DirectTurn(n - 1);
    }
  }

  /** Five transmissions do happen, at every counter but 2; and four links, at counters 1 to 4. */
  lemma BoundsAreMet()
    ensures Run(Fresh(Opportunistic, None), Spaced(6)).sends == [0, 1, 3, 4, 5]
    ensures Run(Fresh(Direct, None), Spaced(4)).links == [1, 2, 3, 4]
  {
    OpportunisticTurns(6);
    DirectTurns(4);
  }

  /** A failed message can still be delivered: the seventh turn gives up while the proof of the fifth transmission is
      under way, and the proof overturns the failure. */
  lemma LateProof()
    ensures var m := Run(Fresh(Opportunistic, None), Spaced(7)); m.state.Failed? && m.removed
    ensures Run(Fresh(Opportunistic, None), Spaced(7) + [Proved]).state.Delivered?
  {
    OpportunisticTurns(6);
    SpacedTurn(Opportunistic, 7);
    RunSnoc(Fresh(Opportunistic, None), Spaced(7), Proved);
  }

  // ---- the queue ----

  /** In a pass over the queue, whether the message at k would leave it at its turn. */
  predicate Leaves(queue: seq<Message>, views: seq<View>, k: nat)
    requires k < |queue| == |views|
  {
    Step(queue[k], Process(views[k])).removed
  }

  /** A message gets its turn unless the one before it got one and left: the walk then steps over it. */
  predicate GetsTurn(queue: seq<Message>, views: seq<View>, k: nat)
    requires k <= |queue| == |views|
  {
    k == 0 || !(GetsTurn(queue, views, k - 1) && Leaves(queue, views, k - 1))
  }

  /** How many messages right before the one at k would leave. */
  function LeaversBefore(queue: seq<Message>, views: seq<View>, k: nat): (n: nat)
    requires k <= |queue| == |views|
    ensures n <= k
  {
    if k == 0 || !Leaves(queue, views, k - 1) then 0 else LeaversBefore(queue, views, k - 1) + 1
  }

  /** A message gets a turn in a pass if and only if an even number of messages right before it would leave. */
  lemma {:induction false} TurnIffEven(queue: seq<Message>, views: seq<View>, k: nat)
    requires k <= |queue| == |views|
    ensures GetsTurn(queue, views, k) <==> LeaversBefore(queue, views, k) % 2 == 0
  {
    if k > 0 {
      TurnIffEven(queue, views, k - 1);
    }
  }

  /** The queue after a pass, as far as the message at k: those that had a turn are moved on or gone, the others are as
      they were. */
  function Passed(queue: seq<Message>, views: seq<View>, k: nat): seq<Message>
    requires k <= |queue| == |views|
  {
    if k == 0 then []
    else
      var before := Passed(queue, views, k - 1);
      if !GetsTurn(queue, views, k - 1) then before + [queue[k - 1]]
      else if Leaves(queue, views, k - 1) then before
      else before + [Step(queue[k - 1], Process(views[k - 1]))]
  }

  /** The message at the walk's index, moved on in place or taken out: in both cases what follows it is as it was. */
  lemma Walked(done: seq<Message>, queue: seq<Message>, k: nat, m: Message)
    requires k < |queue|
    ensures var pending := done + queue[k..];
            && pending[|done|] == queue[k]
            && pending[|done| := m] == done + [m] + queue[k + 1..]
            && pending[..|done|] + pending[|done| + 1..] == done + queue[k + 1..]
    ensures k + 1 < |queue| ==> done + queue[k + 1..] == done + [queue[k + 1]] + queue[k + 2..]
  {
    assert queue[k..] == [queue[k]] + queue[k + 1..];
    if k + 1 < |queue| {
      assert queue[k + 1..] == [queue[k + 1]] + queue[k + 2..];
    }
  }

  /** The walk stands at index i, which holds message k, with the messages before it dealt with; or it is over. */
  ghost predicate At(pending: seq<Message>, queue: seq<Message>, views: seq<View>, k: nat, i: nat) {
    && k <= |queue| == |views|
    && (if i > |pending| then k == |queue| && pending == Passed(queue, views, k)
        else GetsTurn(queue, views, k) && pending == Passed(queue, views, k) + queue[k..] && i == |Passed(queue, views, k)|)
  }

  lemma AtEnd(pending: seq<Message>, queue: seq<Message>, views: seq<View>, k: nat, i: nat)
    requires At(pending, queue, views, k, i) && i >= |pending|
    ensures pending == Passed(queue, views, |queue|)
  {
  }

  lemma AtTurn(pending: seq<Message>, queue: seq<Message>, views: seq<View>, k: nat, i: nat)
    requires At(pending, queue, views, k, i) && i < |pending|
    ensures k < |queue| && pending[i] == queue[k]
    ensures var m := Step(pending[i], Process(views[k]));
            if m.removed then At(pending[..i] + pending[i + 1..], queue, views, Min(k + 2, |queue|), i + 1)
            else At(pending[i := m], queue, views, k + 1, i + 1)
  {
    var m := Step(queue[k], Process(views[k]));
    Walked(Passed(queue, views, k), queue, k, m);
  }
}

module OutboundObject {
  import opened Prelude
  import Spec = Outbound

  class LXMessage {
    const route: Spec.Route
    var state: Spec.State
    var removed: bool
    var attempts: nat
    var next: Option<real>
    ghost var open: nat
    ghost var sends: seq<nat>
    ghost var links: seq<nat>

    ghost function View(): Spec.Message
      reads this
    {
      Spec.Message(route, state, removed, attempts, next, open, sends, links)
    }

    constructor (route: Spec.Route, next: Option<real>)
      ensures View() == Spec.Fresh(route, next)
    {
      this.route, this.next := route, next;
      state, removed, attempts := Spec.Queued, false, 0;
      open, sends, links := 0, [], [];
    }

    /** One turn; says whether the message was transmitted and whether a link was opened for it. */
    method Process(v: Spec.View) returns (sent: bool, linked: bool)
      modifies this
      ensures View() == Spec.Step(old(View()), Spec.Process(v))
      ensures sends == old(sends) + if sent then [old(attempts)] else []
      ensures links == old(links) + if linked then [attempts] else []
    {
      sent, linked := false, false;
      if removed {
        return;
      }
      if state.Delivered? || (route.Propagated? && state.Sent?) || state.Cancelled? || state.Rejected? {
        removed := true;
      } else if route.Propagated? && !v.node {
        state, removed := Spec.Failed, true;
      } else if attempts > Spec.MAX_DELIVERY_ATTEMPTS {
        state, removed := Spec.Failed, true;
      } else if route.Opportunistic? {
        sent := Attempt(v);
      } else if v.link.Active? {
        if !state.Sending? {
          state, sent := Spec.Sending, true;
          open, sends := open + 1, sends + [attempts];
        }
      } else if v.link.Closed? {
        next := Some(v.now + Spec.DELIVERY_RETRY_WAIT);
      } else if v.link.NoLink? && (next.None? || v.now > next.value) {
        attempts, next := attempts + 1, Some(v.now + Spec.DELIVERY_RETRY_WAIT);
        if attempts < Spec.MAX_DELIVERY_ATTEMPTS {
          if v.path {
            links, linked := links + [attempts], true;
          } else {
            next := Some(v.now + Spec.PATH_REQUEST_WAIT);
          }
        }
      }
    }

    method Attempt(v: Spec.View) returns (sent: bool)
      requires attempts <= Spec.MAX_DELIVERY_ATTEMPTS
      modifies this
      ensures View() == Spec.ProcessOpportunistic(old(View()), v)
      ensures sends == old(sends) + if sent then [old(attempts)] else []
      ensures links == old(links)
    {
      sent := false;
      if attempts >= Spec.MAX_PATHLESS_TRIES && !v.path {
        attempts, next := attempts + 1, Some(v.now + Spec.PATH_REQUEST_WAIT);
      } else if attempts == Spec.MAX_PATHLESS_TRIES + 1 {
        attempts, next := attempts + 1, Some(v.now + Spec.PATH_REQUEST_WAIT);
      } else if next.None? || v.now > next.value {
        open, sends := open + 1, sends + [attempts];
        attempts, next := attempts + 1, Some(v.now + Spec.DELIVERY_RETRY_WAIT);
        state, sent := Spec.Sent, true;
      }
    }
  }

  /** The queue of pending messages, walked by an index while messages are taken out of it. */
  class Queue {
    var pending: seq<Spec.Message>

    constructor (pending: seq<Spec.Message>)
      ensures this.pending == pending
    {
      this.pending := pending;
    }

    /** The turn of the message at index i, message k of the pass; the one after it moves into its place if it leaves. */
    method Visit(i: nat, views: seq<Spec.View>, k: nat) returns (next: nat)
      requires i < |pending| && k < |views|
      modifies this
      ensures var m := Spec.Step(old(pending[i]), Spec.Process(views[k]));
              && pending == (if m.removed then old(pending[..i]) + old(pending[i + 1..]) else old(pending)[i := m])
              && next == if m.removed then Min(k + 2, |views|) else k + 1
    {
      var m := Spec.Step(pending[i], Spec.Process(views[k]));
      if m.removed {
        pending := pending[..i] + pending[i + 1..];
        next := Min(k + 2, |views|);
      } else {
        pending := pending[i := m];
        next := k + 1;
      }
    }

    /** One pass of process_outbound, each message with what the router finds at its turn. */
    method ProcessOutbound(views: seq<Spec.View>)
      requires |views| == |pending|
      modifies this
      ensures pending == Spec.Passed(old(pending), views, |views|)
    {
      ghost var queue := pending;
      var i, k := 0, 0;
      while i < |pending|
        invariant Spec.At(pending, queue, views, k, i)
        decreases |queue| - k
      {
        Spec.AtTurn(pending, queue, views, k, i);
        k := Visit(i, views, k);
        i := i + 1;
      }
      Spec.AtEnd(pending, queue, views, k, i);
    }
  }
}
