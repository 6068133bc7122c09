/**
 The event bus: one publisher side, any number of subscribers, and for each subscriber a forwarding goroutine between
 two bounded queues. The module first gives one subscriber as a state machine, then the whole bus as the interleaving
 of those machines with publishers that work on a copied list, and last the objects of the implementation.
 */
module Buses {
  import opened Options
  import opened Sequences

  datatype EventType = Observed | Decided | Executed | Logged | Error

  datatype Event = Event(kind: EventType, payload: nat)

  /** Where the goroutine of a subscriber stands: at its outer select, between its two selects, or returned. */
  datatype Forwarder = Idle | Holding(event: Event) | Done

  /**
   One subscriber. `attempted`, `consumed` and `dropped` record what was sent to it, what its consumer read and how
   many events were discarded. `panicked` is set by a send on, or a second close of, a closed channel.
   */
  datatype Sub = Sub(
    name: string,
    ch: seq<Event>,
    dispatch: seq<Event>,
    forwarder: Forwarder,
    quitClosed: bool,
    chClosed: bool,
    attempted: seq<Event>,
    consumed: seq<Event>,
    dropped: nat,
    panicked: bool)
  {
    function Hand(): seq<Event> {
      if forwarder.Holding? then [forwarder.event] else []
    }

    /** Every event still known to the subscriber, oldest first. */
    function Kept(): seq<Event> {
      consumed + ch + Hand() + dispatch
    }

    /** How many events were accepted and not read yet. */
    function Backlog(): nat {
      |ch| + |Hand()| + |dispatch|
    }
  }

  function NewSub(name: string): Sub {
    Sub(name, [], [], Idle, false, false, [], [], 0, false)
  }

  /** A non-blocking send on `dispatch`. A `parked` forwarder takes the event straight from the sender. */
  function SendTo(s: Sub, size: nat, e: Event, parked: bool): Sub {
    var s := s.(attempted := s.attempted + [e]);
    if parked && s.forwarder.Idle? && s.dispatch == [] then s.(forwarder := Holding(e))
    else if |s.dispatch| < size * 2 then s.(dispatch := s.dispatch + [e])
    else s.(dropped := s.dropped + 1)
  }

  function CloseQuit(s: Sub): Sub {
    if s.quitClosed then s.(panicked := true) else s.(quitClosed := true)
  }

  /** What the goroutine of a subscriber and its consumer do on their own. */
  datatype Turn = Receive | Forward(waiting: bool) | CloseCh | Consume

  /**
   One turn, or `None` when it would have to wait. A `waiting` consumer takes the event straight from the forwarder.
   */
  function Take(s: Sub, size: nat, turn: Turn): Option<Sub> {
    match turn
    case Receive =>
      if s.forwarder.Idle? && s.dispatch != [] then
        Some(s.(forwarder := Holding(s.dispatch[0]), dispatch := s.dispatch[1..]))
      else None
    case Forward(waiting) =>
      if !s.forwarder.Holding? then None
      else if s.chClosed then Some(s.(panicked := true))
      else
        var e := s.forwarder.event;
        var s := s.(forwarder := Idle);
        Some(if waiting && s.ch == [] then s.(consumed := s.consumed + [e])
             else if |s.ch| < size then s.(ch := s.ch + [e])
             else s.(dropped := s.dropped + 1))
    case CloseCh =>
      if !(s.forwarder.Idle? && s.quitClosed) then None
      else if s.chClosed then Some(s.(panicked := true))
      else Some(s.(forwarder := Done, chClosed := true))
    case Consume =>
      if s.ch != [] then Some(s.(ch := s.ch[1..], consumed := s.consumed + [s.ch[0]]))
      else None
  }

  /** What every subscriber satisfies, at all times. */
  ghost predicate SubInv(s: Sub, size: nat) {
    && !s.panicked
    && (s.chClosed <==> s.forwarder.Done?)
    && (s.chClosed ==> s.quitClosed)
    && |s.ch| <= size
    && |s.dispatch| <= size * 2
    && IsSubsequence(s.Kept(), s.attempted)
    && |s.attempted| == |s.Kept()| + s.dropped
  }

  lemma NewSubIsFine(name: string, size: nat)
    ensures SubInv(NewSub(name), size)
  {
    SubsequenceOfItself<Event>([]);
    assert NewSub(name).Kept() == [];
  }

  lemma SendKeepsInv(s: Sub, size: nat, e: Event, parked: bool)
    requires SubInv(s, size)
    ensures SubInv(SendTo(s, size, e, parked), size)
  {
    var t := SendTo(s, size, e, parked);
    SubsequenceTakesLast(s.Kept(), s.attempted, e);
    SubsequenceSkipsLast(s.Kept(), s.attempted, e);
    assert t.Kept() == s.Kept() + [e] || t.Kept() == s.Kept();
  }

  lemma ForwardDelivers(s: Sub, size: nat, waiting: bool)
    requires s.forwarder.Holding? && !s.chClosed
    requires |s.ch| < size || (waiting && s.ch == [])
    ensures var t := Take(s, size, Forward(waiting)).value; t.dropped == s.dropped && t.Kept() == s.Kept()
  {
    var t := Take(s, size, Forward(waiting)).value;
    assert t.consumed + t.ch == s.consumed + s.ch + s.Hand();
    assert t.Hand() == [];
  }

  lemma ForwardDiscards(s: Sub, size: nat, waiting: bool)
    requires s.forwarder.Holding? && !s.chClosed
    requires |s.ch| >= size && !(waiting && s.ch == [])
    ensures var t := Take(s, size, Forward(waiting)).value;
            var k := |s.consumed| + |s.ch|;
            && t.dropped == s.dropped + 1 && k < |s.Kept()| && t.Kept() == s.Kept()[..k] + s.Kept()[k + 1..]
  {
  }

  /** A turn only moves events along, except that a forwarder facing a full `ch` discards the one in its hand. */
  lemma KeptAfterTurn(s: Sub, size: nat, turn: Turn)
    requires !s.chClosed && Take(s, size, turn).Some?
    ensures var t := Take(s, size, turn).value;
            var k := |s.consumed| + |s.ch|;
            && (t.dropped == s.dropped ==> t.Kept() == s.Kept())
            && (t.dropped != s.dropped ==>
                  t.dropped == s.dropped + 1 && k < |s.Kept()| && t.Kept() == s.Kept()[..k] + s.Kept()[k + 1..])
  {
    match turn
    case Receive =>
      var t := Take(s, size, turn).value;
      assert s.Hand() + s.dispatch == t.Hand() + t.dispatch;
      assert s.Kept() == s.consumed + s.ch + (s.Hand() + s.dispatch);
      assert t.Kept() == s.consumed + s.ch + (t.Hand() + t.dispatch);
    case Forward(waiting) =>
      if |s.ch| < size || (waiting && s.ch == []) {
        ForwardDelivers(s, size, waiting);
      } else {
        ForwardDiscards(s, size, waiting);
      }
    case CloseCh =>
    case Consume =>
      var t := Take(s, size, turn).value;
      assert t.consumed + t.ch == s.consumed + s.ch;
  }

  lemma TurnAfterClose(s: Sub, size: nat, turn: Turn)
    requires SubInv(s, size) && s.chClosed && Take(s, size, turn).Some?
    ensures Take(s, size, turn).value.Kept() == s.Kept()
    ensures Take(s, size, turn).value.dropped == s.dropped
  {
    var t := Take(s, size, turn).value;
    assert t.consumed + t.ch == s.consumed + s.ch;
  }

  lemma TurnKeepsInv(s: Sub, size: nat, turn: Turn)
    requires SubInv(s, size) && Take(s, size, turn).Some?
    ensures SubInv(Take(s, size, turn).value, size)
    ensures Take(s, size, turn).value.quitClosed == s.quitClosed
  {
    if s.chClosed {
      TurnAfterClose(s, size, turn);
    } else {
      KeptAfterTurn(s, size, turn);
      if Take(s, size, turn).value.dropped != s.dropped {
        SubsequenceWithout(s.Kept(), s.attempted, |s.consumed| + |s.ch|);
      }
    }
  }

  /** A sender that finds the forwarder parked on an empty `dispatch` hands the event over. */
  predicate HandsOver(s: Sub, parked: bool) {
    parked && s.forwarder == Idle && s.dispatch == []
  }

  /**
   A send loses its event exactly when twice the buffer size is waiting already and no parked forwarder takes it; any
   other send keeps it, behind everything that the subscriber has, in the hand of a parked forwarder or buffered.
   */
  lemma SendLosesIff(s: Sub, size: nat, e: Event, parked: bool)
    ensures var t := SendTo(s, size, e, parked);
            var lost := |s.dispatch| >= 2 * size && !HandsOver(s, parked);
            && t.attempted == s.attempted + [e]
            && t.dropped == (if lost then s.dropped + 1 else s.dropped)
            && t.Kept() == (if lost then s.Kept() else s.Kept() + [e])
            && (HandsOver(s, parked) ==> t.forwarder == Holding(e))
            && t.ch == s.ch && t.consumed == s.consumed
  {
    var t := SendTo(s, size, e, parked);
    assert HandsOver(s, parked) ==> t.Hand() == [e];
    if |s.dispatch| < 2 * size && !HandsOver(s, parked) {
      assert t.dispatch == s.dispatch + [e];
    }
  }

  /** With a buffer, an event is lost only by a subscriber that already has more than a bufferful unread. */
  lemma LossNeedsBacklog(s: Sub, size: nat)
    requires size >= 1 && s.Backlog() <= size
    ensures forall e, parked :: SendTo(s, size, e, parked).dropped == s.dropped
    ensures forall turn :: Take(s, size, turn).Some? ==> Take(s, size, turn).value.dropped == s.dropped
  {
  }

  // ----- the whole bus

  /** A Publish: its event, the list it copied, and how many of the copied subscribers it has sent to so far. */
  datatype Publication = Publication(event: Event, copied: seq<nat>, sent: nat)

  /** All subscribers ever created, the ones currently listed, and all publications ever begun. */
  datatype System = System(size: nat, subs: seq<Sub>, list: seq<nat>, publications: seq<Publication>)

  datatype Step =
    | Subscribe(name: string)
    | Unsubscribe(name: string)
    | BeginPublish(event: Event)
    | SendNext(publication: nat, parked: bool)
    | Turn(id: nat, turn: Turn)

  function Initial(size: nat): System {
    System(size, [], [], [])
  }

  /** Position in `list` of the first subscriber called `name`, or the length of `list`. */
  function FirstNamed(names: seq<string>, name: string): (i: nat)
    ensures i <= |names|
    ensures i < |names| ==> names[i] == name
    ensures name !in names[..i]
  {
    if names == [] || names[0] == name then 0 else 1 + FirstNamed(names[1..], name)
  }

  function Names(sys: System): (names: seq<string>)
    ensures |names| == |sys.list|
  {
    seq(|sys.list|, i requires 0 <= i < |sys.list| =>
      if sys.list[i] < |sys.subs| then sys.subs[sys.list[i]].name else "")
  }

  /** One atomic step of one goroutine, or `None` when that goroutine cannot take it now. */
  function Next(sys: System, step: Step): Option<System> {
    match step
    case Subscribe(name) =>
      Some(sys.(subs := sys.subs + [NewSub(name)], list := sys.list + [|sys.subs|]))
    case Unsubscribe(name) =>
      var i := FirstNamed(Names(sys), name);
      if i == |sys.list| then Some(sys)
      else if sys.list[i] >= |sys.subs| then None
      else
        var id := sys.list[i];
        Some(sys.(subs := sys.subs[id := CloseQuit(sys.subs[id])], list := sys.list[..i] + sys.list[i + 1..]))
    case BeginPublish(event) =>
      Some(sys.(publications := sys.publications + [Publication(event, sys.list, 0)]))
    case SendNext(p, parked) =>
      if p >= |sys.publications| || sys.publications[p].sent >= |sys.publications[p].copied| then None
      else
        var pub := sys.publications[p];
        var id := pub.copied[pub.sent];
        if id >= |sys.subs| then None
        else
          Some(sys.(subs := sys.subs[id := SendTo(sys.subs[id], sys.size, pub.event, parked)],
                    publications := sys.publications[p := pub.(sent := pub.sent + 1)]))
    case Turn(id, turn) =>
      if id >= |sys.subs| then None
      else
        var s := Take(sys.subs[id], sys.size, turn);
        if s.None? then None else Some(sys.(subs := sys.subs[id := s.value]))
  }

  /** The state after an interleaving, `None` when some step of it was not possible. */
  function Run(sys: System, steps: seq<Step>): Option<System> {
    if steps == [] then Some(sys)
    else
      var before := Run(sys, steps[..|steps| - 1]);
      if before.None? then None else Next(before.value, steps[|steps| - 1])
  }

  ghost predicate ListInv(sys: System) {
    && (forall i :: 0 <= i < |sys.list| ==> sys.list[i] < |sys.subs|)
    && (forall i, j :: 0 <= i < j < |sys.list| ==> sys.list[i] != sys.list[j])
  }

  ghost predicate CopyInv(pub: Publication, created: nat) {
    && pub.sent <= |pub.copied|
    && (forall i :: 0 <= i < |pub.copied| ==> pub.copied[i] < created)
    && (forall i, j :: 0 <= i < j < |pub.copied| ==> pub.copied[i] != pub.copied[j])
  }

  ghost predicate TargetsInv(sys: System) {
    forall p :: 0 <= p < |sys.publications| ==> CopyInv(sys.publications[p], |sys.subs|)
  }

  ghost predicate Inv(sys: System) {
    && ListInv(sys)
    && TargetsInv(sys)
    && (forall id :: 0 <= id < |sys.subs| ==> SubInv(sys.subs[id], sys.size))
    && (forall id :: 0 <= id < |sys.subs| ==> (sys.subs[id].quitClosed <==> id !in sys.list))
  }

  lemma WithoutOne(list: seq<nat>, i: nat)
    requires i < |list|
    requires forall j, k :: 0 <= j < k < |list| ==> list[j] != list[k]
    ensures var rest := list[..i] + list[i + 1..];
            && (forall j, k :: 0 <= j < k < |rest| ==> rest[j] != rest[k])
            && (forall id :: id in rest <==> id in list && id != list[i])
  {
    var rest := list[..i] + list[i + 1..];
    forall id
      ensures id in rest <==> id in list && id != list[i]
    {
      if id in list && id != list[i] {
        var k :| 0 <= k < |list| && list[k] == id;
        assert rest[if k < i then k else k - 1] == id;
      }
    }
  }

  lemma CloseQuitKeepsInv(s: Sub, size: nat)
    requires SubInv(s, size) && !s.quitClosed
    ensures SubInv(CloseQuit(s), size)
  {
    assert CloseQuit(s).Kept() == s.Kept();
  }

  /** Taking position `i` off the list and closing that subscriber's `quit` keeps the bus safe. */
  lemma RemovalKeepsInv(sys: System, i: nat)
    requires Inv(sys) && i < |sys.list|
    ensures var id := sys.list[i];
            Inv(sys.(subs := sys.subs[id := CloseQuit(sys.subs[id])], list := sys.list[..i] + sys.list[i + 1..]))
  {
    var id := sys.list[i];
    assert !sys.subs[id].quitClosed;
    CloseQuitKeepsInv(sys.subs[id], sys.size);
    WithoutOne(sys.list, i);
  }

  lemma UnsubscribeKeepsInv(sys: System, name: string)
    requires Inv(sys)
    ensures Next(sys, Unsubscribe(name)).Some? && Inv(Next(sys, Unsubscribe(name)).value)
  {
    var i := FirstNamed(Names(sys), name);
    if i < |sys.list| {
      RemovalKeepsInv(sys, i);
    }
  }

  lemma NewcomerIsFine(subs: seq<Sub>, list: seq<nat>, size: nat, name: string)
    requires forall k :: 0 <= k < |list| ==> list[k] < |subs|
    requires forall id :: 0 <= id < |subs| ==> SubInv(subs[id], size) && (subs[id].quitClosed <==> id !in list)
    ensures var after := subs + [NewSub(name)];
            forall id :: 0 <= id < |after| ==>
              SubInv(after[id], size) && (after[id].quitClosed <==> id !in list + [|subs|])
  {
    NewSubIsFine(name, size);
  }

  lemma SubscribeKeepsInv(sys: System, name: string)
    requires Inv(sys)
    ensures Inv(Next(sys, Subscribe(name)).value)
  {
    NewcomerIsFine(sys.subs, sys.list, sys.size, name);
    var next := Next(sys, Subscribe(name)).value;
    assert next.subs == sys.subs + [NewSub(name)] && next.list == sys.list + [|sys.subs|];
  }

  /** Changing one subscriber soundly, without touching its `quit`, keeps the bus safe. */
  lemma ReplacementKeepsInv(sys: System, id: nat, s: Sub)
    requires Inv(sys) && id < |sys.subs|
    requires SubInv(s, sys.size) && s.quitClosed == sys.subs[id].quitClosed
    ensures Inv(sys.(subs := sys.subs[id := s]))
  {
  }

  lemma SendNextKeepsInv(sys: System, p: nat, parked: bool)
    requires Inv(sys) && Next(sys, SendNext(p, parked)).Some?
    ensures Inv(Next(sys, SendNext(p, parked)).value)
  {
    var pub := sys.publications[p];
    var id := pub.copied[pub.sent];
    SendKeepsInv(sys.subs[id], sys.size, pub.event, parked);
    ReplacementKeepsInv(sys, id, SendTo(sys.subs[id], sys.size, pub.event, parked));
    assert CopyInv(pub.(sent := pub.sent + 1), |sys.subs|);
  }

  lemma NextKeepsInv(sys: System, step: Step)
    requires Inv(sys) && Next(sys, step).Some?
    ensures Inv(Next(sys, step).value)
  {
    match step
    case Subscribe(name) =>
      SubscribeKeepsInv(sys, name);
    case Unsubscribe(name) =>
      UnsubscribeKeepsInv(sys, name);
    case BeginPublish(event) =>
      assert CopyInv(Publication(event, sys.list, 0), |sys.subs|);
    case SendNext(p, parked) =>
      SendNextKeepsInv(sys, p, parked);
    case Turn(id, turn) =>
      TurnKeepsInv(sys.subs[id], sys.size, turn);
      ReplacementKeepsInv(sys, id, Take(sys.subs[id], sys.size, turn).value);
  }

  /**
   Every reachable state of a bus is safe: nothing panicked, `quit` is closed exactly for the subscribers off the list,
   `ch` only by a forwarder that returned, and every subscriber holds an ordered selection of what was sent to it,
   with the rest counted as dropped.
   */
  lemma {:induction false} EveryReachableStateIsSafe(size: nat, steps: seq<Step>)
    requires Run(Initial(size), steps).Some?
    ensures Run(Initial(size), steps).value.size == size
    ensures Inv(Run(Initial(size), steps).value)
  {
    if steps != [] {
      EveryReachableStateIsSafe(size, steps[..|steps| - 1]);
      NextKeepsInv(Run(Initial(size), steps[..|steps| - 1]).value, steps[|steps| - 1]);
    }
  }

  /** Whatever state its subscribers are in, a publisher can always take its next send: Publish never blocks. */
  lemma PublishNeverBlocks(size: nat, steps: seq<Step>, p: nat, parked: bool)
    requires Run(Initial(size), steps).Some?
    requires var sys := Run(Initial(size), steps).value;
             p < |sys.publications| && sys.publications[p].sent < |sys.publications[p].copied|
    ensures var sys := Run(Initial(size), steps).value;
            var next := Next(sys, SendNext(p, parked));
            && next.Some?
            && next.value.publications[p] == sys.publications[p].(sent := sys.publications[p].sent + 1)
  {
    EveryReachableStateIsSafe(size, steps);
  }

  /**
   A forwarder that has been told to quit is never stuck: at most one forward, which cannot wait, separates it from the
   point where it can close its channel, whatever its consumer does.
   */
  lemma QuitIsAlwaysServed(size: nat, steps: seq<Step>, id: nat, waiting: bool)
    requires Run(Initial(size), steps).Some?
    requires var sys := Run(Initial(size), steps).value;
             id < |sys.subs| && id !in sys.list && !sys.subs[id].chClosed
    ensures var s := Run(Initial(size), steps).value.subs[id];
            var ready := if s.forwarder.Holding? then Take(s, size, Forward(waiting)) else Some(s);
            && ready.Some?
            && Take(ready.value, size, CloseCh).Some?
            && Take(ready.value, size, CloseCh).value.chClosed && !Take(ready.value, size, CloseCh).value.panicked
  {
    EveryReachableStateIsSafe(size, steps);
  }

  // ----- when a forwarder that was told to quit closes its channel

  /** The publication has copied subscriber `id` and not sent to it yet. */
  ghost predicate Ahead(pub: Publication, id: nat) {
    exists k :: pub.sent <= k < |pub.copied| && pub.copied[k] == id
  }

  ghost function AheadOne(pub: Publication, id: nat): nat {
    if Ahead(pub, id) then 1 else 0
  }

  /** How many publications will still send to subscriber `id`, if no other begins. */
  ghost function Coming(pubs: seq<Publication>, id: nat): nat {
    if pubs == [] then 0 else Coming(pubs[..|pubs| - 1], id) + AheadOne(pubs[|pubs| - 1], id)
  }

  lemma {:induction false} ComingUpdated(pubs: seq<Publication>, p: nat, pub: Publication, id: nat)
    requires p < |pubs|
    ensures Coming(pubs[p := pub], id) == Coming(pubs, id) + AheadOne(pub, id) - AheadOne(pubs[p], id)
  {
    var last := |pubs| - 1;
    if p == last {
      assert pubs[p := pub][..last] == pubs[..last];
    } else {
      ComingUpdated(pubs[..last], p, pub, id);
      assert pubs[p := pub][..last] == pubs[..last][p := pub];
    }
  }

  lemma SentIsBehind(pub: Publication, created: nat, id: nat)
    requires CopyInv(pub, created) && pub.sent < |pub.copied|
    ensures var next := pub.(sent := pub.sent + 1);
            AheadOne(pub, id) == AheadOne(next, id) + if pub.copied[pub.sent] == id then 1 else 0
  {
    var next := pub.(sent := pub.sent + 1);
    if Ahead(pub, id) && pub.copied[pub.sent] != id {
      var k :| pub.sent <= k < |pub.copied| && pub.copied[k] == id;
      assert next.sent <= k < |next.copied| && next.copied[k] == id;
    }
    if Ahead(next, id) {
      var k :| next.sent <= k < |next.copied| && next.copied[k] == id;
      assert pub.sent <= k < |pub.copied| && pub.copied[k] == id;
    }
  }

  /**
   The events that can still reach the forwarder of a subscriber off the list: those buffered and those on their way.
   */
  ghost function Left(sys: System, id: nat): nat
    requires id < |sys.subs|
  {
    |sys.subs[id].dispatch| + Coming(sys.publications, id)
  }

  /** The forwarder has taken an event in its hand, from its buffer or straight from a sender. */
  function Takes(before: Sub, after: Sub): nat {
    if !before.forwarder.Holding? && after.forwarder.Holding? then 1 else 0
  }

  lemma SendLeft(sys: System, p: nat, parked: bool, id: nat)
    requires Inv(sys) && id < |sys.subs| && Next(sys, SendNext(p, parked)).Some?
    ensures var after := Next(sys, SendNext(p, parked)).value;
            Left(after, id) + Takes(sys.subs[id], after.subs[id]) <= Left(sys, id)
  {
    var pub := sys.publications[p];
    assert CopyInv(pub, |sys.subs|);
    ComingUpdated(sys.publications, p, pub.(sent := pub.sent + 1), id);
    SentIsBehind(pub, |sys.subs|, id);
  }

  lemma UnsubscribeLeft(sys: System, name: string, id: nat)
    requires Inv(sys) && id < |sys.subs| && id !in sys.list && Next(sys, Unsubscribe(name)).Some?
    ensures var after := Next(sys, Unsubscribe(name)).value;
            && id < |after.subs| && id !in after.list && after.subs[id] == sys.subs[id]
            && after.publications == sys.publications
  {
    var i := FirstNamed(Names(sys), name);
    assert i < |sys.list| ==> sys.list[i] != id;
  }

  lemma BeginLeft(sys: System, event: Event, id: nat)
    requires id < |sys.subs| && id !in sys.list
    ensures Coming(Next(sys, BeginPublish(event)).value.publications, id) == Coming(sys.publications, id)
  {
    var pub := Publication(event, sys.list, 0);
    assert (sys.publications + [pub])[..|sys.publications|] == sys.publications;
    assert !Ahead(pub, id);
  }

  lemma TakeLeft(s: Sub, size: nat, turn: Turn)
    requires Take(s, size, turn).Some?
    ensures var t := Take(s, size, turn).value; |t.dispatch| + Takes(s, t) <= |s.dispatch|
  {
  }

  /** No step lets more events reach a forwarder whose subscriber has left the list, and each it takes is one less. */
  lemma StepLeft(sys: System, step: Step, id: nat)
    requires Inv(sys) && id < |sys.subs| && id !in sys.list && Next(sys, step).Some?
    ensures var after := Next(sys, step).value;
            && id < |after.subs| && id !in after.list
            && Left(after, id) + Takes(sys.subs[id], after.subs[id]) <= Left(sys, id)
  {
    match step
    case Subscribe(_) =>
    case Unsubscribe(name) =>
      UnsubscribeLeft(sys, name, id);
    case BeginPublish(event) =>
      BeginLeft(sys, event, id);
    case SendNext(p, parked) =>
      SendLeft(sys, p, parked, id);
    case Turn(other, turn) =>
      TakeLeft(sys.subs[other], sys.size, turn);
  }

  /** How many events the forwarder of subscriber `id` takes during some steps. */
  ghost function Taken(sys: System, steps: seq<Step>, id: nat): nat
    requires id < |sys.subs|
  {
    if steps == [] then 0
    else
      var before := steps[..|steps| - 1];
      var s, t := Run(sys, before), Run(sys, steps);
      if s.None? || t.None? || id >= |s.value.subs| || id >= |t.value.subs| then 0
      else Taken(sys, before, id) + Takes(s.value.subs[id], t.value.subs[id])
  }

  lemma {:induction false} TakenOfLeft(sys: System, steps: seq<Step>, id: nat)
    requires Inv(sys) && id < |sys.subs| && id !in sys.list && Run(sys, steps).Some?
    ensures var after := Run(sys, steps).value;
            && Inv(after) && id < |after.subs| && id !in after.list
            && Left(after, id) + Taken(sys, steps, id) <= Left(sys, id)
  {
    if steps != [] {
      var before, step := steps[..|steps| - 1], steps[|steps| - 1];
      TakenOfLeft(sys, before, id);
      StepLeft(Run(sys, before).value, step, id);
      NextKeepsInv(Run(sys, before).value, step);
    }
  }

  /** How many turns the forwarder of subscriber `id` gets during some steps. */
  function ForwarderTurns(steps: seq<Step>, id: nat): nat {
    if steps == [] then 0
    else
      var last := steps[|steps| - 1];
      ForwarderTurns(steps[..|steps| - 1], id) + if IsForwarderTurn(last, id) then 1 else 0
  }

  /** Two turns for each event that can still reach the forwarder, and one for the event in its hand. */
  ghost function TurnsLeft(sys: System, id: nat): nat
    requires id < |sys.subs|
  {
    2 * Left(sys, id) + |sys.subs[id].Hand()|
  }

  /** This step is a turn of the forwarder of subscriber `id`. */
  predicate IsForwarderTurn(step: Step, id: nat) {
    step.Turn? && step.id == id && !step.turn.Consume?
  }

  lemma TakeHand(s: Sub, size: nat, turn: Turn)
    requires SubInv(s, size) && Take(s, size, turn).Some? && !Take(s, size, turn).value.forwarder.Done?
    ensures var t := Take(s, size, turn).value;
            match turn
            case Receive => Takes(s, t) == 1 && |t.Hand()| == |s.Hand()| + 1
            case Forward(_) => Takes(s, t) == 0 && |t.Hand()| + 1 == |s.Hand()|
            case _ => Takes(s, t) == 0 && |t.Hand()| == |s.Hand()|
  {
  }

  lemma OtherHand(sys: System, step: Step, id: nat)
    requires Inv(sys) && id < |sys.subs| && id !in sys.list && Next(sys, step).Some?
    requires !(step.Turn? && step.id == id)
    ensures var s, t := sys.subs[id], Next(sys, step).value.subs[id]; |t.Hand()| == |s.Hand()| + Takes(s, t)
  {
    if step.Unsubscribe? {
      UnsubscribeLeft(sys, step.name, id);
    }
  }

  lemma StepTurnsLeft(sys: System, step: Step, id: nat)
    requires Inv(sys) && id < |sys.subs| && id !in sys.list && Next(sys, step).Some?
    ensures var after := Next(sys, step).value;
            && id < |after.subs|
            && (after.subs[id].forwarder.Done?
                || TurnsLeft(after, id) + (if IsForwarderTurn(step, id) then 1 else 0) <= TurnsLeft(sys, id))
  {
    StepLeft(sys, step, id);
    if step.Turn? && step.id == id {
      if !Next(sys, step).value.subs[id].forwarder.Done? {
        TakeHand(sys.subs[id], sys.size, step.turn);
      }
    } else {
      OtherHand(sys, step, id);
    }
  }

  lemma DoneStaysDone(sys: System, step: Step, id: nat)
    requires Inv(sys) && id < |sys.subs| && id !in sys.list && Next(sys, step).Some?
    requires sys.subs[id].forwarder.Done?
    ensures id < |Next(sys, step).value.subs| && Next(sys, step).value.subs[id].forwarder.Done?
  {
    if step.Unsubscribe? {
      UnsubscribeLeft(sys, step.name, id);
    }
  }

  lemma {:induction false} TurnsOfLeft(sys: System, steps: seq<Step>, id: nat)
    requires Inv(sys) && id < |sys.subs| && id !in sys.list && Run(sys, steps).Some?
    ensures var after := Run(sys, steps).value;
            && id < |after.subs|
            && (after.subs[id].forwarder.Done?
                || TurnsLeft(after, id) + ForwarderTurns(steps, id) <= TurnsLeft(sys, id))
  {
    if steps != [] {
      var before, step := steps[..|steps| - 1], steps[|steps| - 1];
      TurnsOfLeft(sys, before, id);
      TakenOfLeft(sys, before, id);
      StepTurnsLeft(Run(sys, before).value, step, id);
      if Run(sys, before).value.subs[id].forwarder.Done? {
        DoneStaysDone(Run(sys, before).value, step, id);
      }
    }
  }

  /**
   However the steps that follow interleave, a forwarder that was told to quit takes at most the events in its buffer
   and those of the unfinished publications that copied it, and it has closed its channel once it has had two turns
   for each of them, one for the event it was holding and one more.
   */
  lemma QuitIsServedInTime(size: nat, first: seq<Step>, steps: seq<Step>, id: nat)
    requires Run(Initial(size), first).Some?
    requires var sys := Run(Initial(size), first).value;
             id < |sys.subs| && id !in sys.list && Run(sys, steps).Some?
    ensures var sys := Run(Initial(size), first).value;
            && Taken(sys, steps, id) <= |sys.subs[id].dispatch| + Coming(sys.publications, id)
            && id < |Run(sys, steps).value.subs|
            && (ForwarderTurns(steps, id)
                > 2 * (|sys.subs[id].dispatch| + Coming(sys.publications, id)) + |sys.subs[id].Hand()| ==>
                  Run(sys, steps).value.subs[id].chClosed)
  {
    EveryReachableStateIsSafe(size, first);
    var sys := Run(Initial(size), first).value;
    TakenOfLeft(sys, steps, id);
    TurnsOfLeft(sys, steps, id);
  }

  // ----- what was sent to whom

  /** The publication has already sent to subscriber `id`. */
  ghost predicate Passed(pub: Publication, id: nat) {
    exists k :: 0 <= k < pub.sent && k < |pub.copied| && pub.copied[k] == id
  }

  /** How many publications of event `e` have passed subscriber `id`. */
  ghost function Passes(pubs: seq<Publication>, id: nat, e: Event): nat {
    if pubs == [] then 0
    else Passes(pubs[..|pubs| - 1], id, e) + PassesOne(pubs[|pubs| - 1], id, e)
  }

  ghost function PassesOne(pub: Publication, id: nat, e: Event): nat {
    if pub.event == e && Passed(pub, id) then 1 else 0
  }

  function Occurrences(s: seq<Event>, e: Event): nat {
    multiset(s)[e]
  }

  lemma {:induction false} PassesUpdated(pubs: seq<Publication>, p: nat, pub: Publication, id: nat, e: Event)
    requires p < |pubs|
    ensures Passes(pubs[p := pub], id, e) == Passes(pubs, id, e) + PassesOne(pub, id, e) - PassesOne(pubs[p], id, e)
  {
    var last := |pubs| - 1;
    if p == last {
      assert pubs[p := pub][..last] == pubs[..last];
    } else {
      PassesUpdated(pubs[..last], p, pub, id, e);
      assert pubs[p := pub][..last] == pubs[..last][p := pub];
    }
  }

  lemma {:induction false} NothingPassedYet(pubs: seq<Publication>, id: nat, e: Event)
    requires forall p :: 0 <= p < |pubs| ==> CopyInv(pubs[p], id)
    ensures Passes(pubs, id, e) == 0
  {
    if pubs != [] {
      NothingPassedYet(pubs[..|pubs| - 1], id, e);
      assert CopyInv(pubs[|pubs| - 1], id);
    }
  }

  /** Every subscriber was sent one copy of the event of each publication that has passed it, and nothing else. */
  ghost predicate Accounted(sys: System) {
    forall id, e :: 0 <= id < |sys.subs| ==> Occurrences(sys.subs[id].attempted, e) == Passes(sys.publications, id, e)
  }

  lemma PassedAfterSend(pub: Publication, created: nat, id: nat)
    requires CopyInv(pub, created) && pub.sent < |pub.copied|
    ensures Passed(pub.(sent := pub.sent + 1), id) <==> Passed(pub, id) || id == pub.copied[pub.sent]
    ensures !Passed(pub, pub.copied[pub.sent])
  {
    var after := pub.(sent := pub.sent + 1);
    if Passed(pub, id) {
      var k :| 0 <= k < pub.sent && k < |pub.copied| && pub.copied[k] == id;
      assert after.copied[k] == id;
    }
    if id == pub.copied[pub.sent] {
      assert after.copied[pub.sent] == id;
    }
  }

  lemma SendIsAttempted(s: Sub, size: nat, event: Event, parked: bool, e: Event)
    ensures Occurrences(SendTo(s, size, event, parked).attempted, e)
         == Occurrences(s.attempted, e) + if e == event then 1 else 0
  {
    assert SendTo(s, size, event, parked).attempted == s.attempted + [event];
  }

  lemma SendIsAccounted(sys: System, p: nat, parked: bool, id: nat, e: Event)
    requires Inv(sys) && Accounted(sys) && Next(sys, SendNext(p, parked)).Some? && id < |sys.subs|
    ensures var next := Next(sys, SendNext(p, parked)).value;
            Occurrences(next.subs[id].attempted, e) == Passes(next.publications, id, e)
  {
    var pub := sys.publications[p];
    assert CopyInv(pub, |sys.subs|);
    var target := pub.copied[pub.sent];
    assert Occurrences(sys.subs[id].attempted, e) == Passes(sys.publications, id, e);
    SendIsAttempted(sys.subs[target], sys.size, pub.event, parked, e);
    PassesUpdated(sys.publications, p, pub.(sent := pub.sent + 1), id, e);
    assert PassesOne(pub.(sent := pub.sent + 1), id, e) - PassesOne(pub, id, e)
        == (if id == target && e == pub.event then 1 else 0) by {
      PassedAfterSend(pub, |sys.subs|, id);
    }
  }

  lemma BeginIsAccounted(sys: System, event: Event, id: nat, e: Event)
    ensures Passes(Next(sys, BeginPublish(event)).value.publications, id, e) == Passes(sys.publications, id, e)
  {
    assert Next(sys, BeginPublish(event)).value.publications[..|sys.publications|] == sys.publications;
  }

  lemma TurnsSendNothing(s: Sub, size: nat, turn: Turn)
    requires Take(s, size, turn).Some?
    ensures Take(s, size, turn).value.attempted == s.attempted
  {
  }

  lemma StepIsAccounted(sys: System, step: Step, id: nat, e: Event)
    requires Inv(sys) && Accounted(sys) && Next(sys, step).Some?
    requires id < |Next(sys, step).value.subs|
    ensures var next := Next(sys, step).value;
            Occurrences(next.subs[id].attempted, e) == Passes(next.publications, id, e)
  {
    match step
    case Subscribe(name) =>
      NothingPassedYet(sys.publications, |sys.subs|, e);
    case Unsubscribe(name) =>
    case BeginPublish(event) =>
      BeginIsAccounted(sys, event, id, e);
    case SendNext(p, parked) =>
      SendIsAccounted(sys, p, parked, id, e);
    case Turn(j, turn) =>
      TurnsSendNothing(sys.subs[j], sys.size, turn);
  }

  /** In every reachable state, each subscriber was sent exactly the events of the publications that have passed it. */
  lemma {:induction false} EverySendIsAccounted(size: nat, steps: seq<Step>)
    requires Run(Initial(size), steps).Some?
    ensures Accounted(Run(Initial(size), steps).value)
  {
    if steps != [] {
      var before := steps[..|steps| - 1];
      EverySendIsAccounted(size, before);
      EveryReachableStateIsSafe(size, before);
      var sys := Run(Initial(size), before).value;
      var next := Run(Initial(size), steps).value;
      forall id, e | 0 <= id < |next.subs|
        ensures Occurrences(next.subs[id].attempted, e) == Passes(next.publications, id, e)
      {
        StepIsAccounted(sys, steps[|steps| - 1], id, e);
      }
    }
  }

  /** In every reachable state a send loses an event exactly when twice the size is buffered and none is handed over. */
  lemma SendsLoseIff(size: nat, steps: seq<Step>, p: nat, parked: bool)
    requires Run(Initial(size), steps).Some?
    requires var sys := Run(Initial(size), steps).value;
             p < |sys.publications| && sys.publications[p].sent < |sys.publications[p].copied|
    ensures var sys := Run(Initial(size), steps).value;
            var pub := sys.publications[p];
            var id := pub.copied[pub.sent];
            && id < |sys.subs|
            && Next(sys, SendNext(p, parked)).Some?
            && var s, t := sys.subs[id], Next(sys, SendNext(p, parked)).value.subs[id];
            && (t.dropped == s.dropped + 1 <==> |s.dispatch| == 2 * size && !HandsOver(s, parked))
            && (t.dropped == s.dropped <==> t.Kept() == s.Kept() + [pub.event])
  {
    EveryReachableStateIsSafe(size, steps);
    var sys := Run(Initial(size), steps).value;
    var pub := sys.publications[p];
    SendLosesIff(sys.subs[pub.copied[pub.sent]], size, pub.event, parked);
  }

  /** In every reachable state a forward loses an event exactly when the buffer is full and no consumer is waiting. */
  lemma ForwardsLoseIff(size: nat, steps: seq<Step>, id: nat, waiting: bool)
    requires Run(Initial(size), steps).Some?
    requires var sys := Run(Initial(size), steps).value; id < |sys.subs| && sys.subs[id].forwarder.Holding?
    ensures var sys := Run(Initial(size), steps).value;
            && Next(sys, Turn(id, Forward(waiting))).Some?
            && var s, t := sys.subs[id], Next(sys, Turn(id, Forward(waiting))).value.subs[id];
            && (t.dropped == s.dropped + 1 <==> |s.ch| == size && !(waiting && s.ch == []))
            && (t.dropped == s.dropped <==> t.consumed + t.ch == s.consumed + s.ch + [s.forwarder.event])
  {
    EveryReachableStateIsSafe(size, steps);
  }

  lemma {:induction false} PublicationStays(sys: System, steps: seq<Step>, p: nat)
    requires p < |sys.publications| && Run(sys, steps).Some?
    ensures var after := Run(sys, steps).value;
            && p < |after.publications|
            && after.publications[p].event == sys.publications[p].event
            && after.publications[p].copied == sys.publications[p].copied
  {
    if steps != [] {
      PublicationStays(sys, steps[..|steps| - 1], p);
    }
  }

  lemma {:induction false} RunOn(sys: System, first: seq<Step>, more: seq<Step>)
    requires Run(sys, first).Some?
    ensures Run(sys, first + more) == Run(Run(sys, first).value, more)
  {
    if more == [] {
      assert first + more == first;
    } else {
      RunOn(sys, first, more[..|more| - 1]);
      assert (first + more)[..|first + more| - 1] == first + more[..|more| - 1];
    }
  }

  lemma {:induction false} PassedIsSent(pubs: seq<Publication>, p: nat, id: nat)
    requires p < |pubs| && Passed(pubs[p], id)
    ensures Passes(pubs, id, pubs[p].event) > 0
  {
    if p < |pubs| - 1 {
      PassedIsSent(pubs[..|pubs| - 1], p, id);
    }
  }

  /** Whatever else happens meanwhile, a publication that has finished was sent to everyone listed when it began. */
  lemma PublicationReachesAll(size: nat, first: seq<Step>, e: Event, more: seq<Step>, id: nat)
    requires Run(Initial(size), first).Some? && Run(Initial(size), first + [BeginPublish(e)] + more).Some?
    requires id in Run(Initial(size), first).value.list
    requires var p := |Run(Initial(size), first).value.publications|;
             var pubs := Run(Initial(size), first + [BeginPublish(e)] + more).value.publications;
             p < |pubs| && pubs[p].sent == |pubs[p].copied|
    ensures var after := Run(Initial(size), first + [BeginPublish(e)] + more).value;
            id < |after.subs| && e in after.subs[id].attempted
  {
    var sys := Run(Initial(size), first).value;
    var begun := first + [BeginPublish(e)];
    var p := |sys.publications|;
    assert begun[..|first|] == first;
    var started := Run(Initial(size), begun).value;
    RunOn(Initial(size), begun, more);
    PublicationStays(started, more, p);
    var after := Run(started, more).value;
    EverySendIsAccounted(size, begun + more);
    EveryReachableStateIsSafe(size, begun + more);
    var k :| 0 <= k < |sys.list| && sys.list[k] == id;
    assert after.publications[p].copied[k] == id;
    PassedIsSent(after.publications, p, id);
    assert Occurrences(after.subs[id].attempted, e) > 0;
  }

  // ----- no loss

  lemma StepLosesNothing(sys: System, step: Step, id: nat)
    requires sys.size >= 1 && Next(sys, step).Some?
    requires id < |sys.subs| && sys.subs[id].Backlog() <= sys.size
    ensures Next(sys, step).value.subs[id].dropped == sys.subs[id].dropped
  {
    LossNeedsBacklog(sys.subs[id], sys.size);
  }

  /** The backlog of subscriber `id` stayed within a bufferful before each of the steps. */
  ghost predicate KeepsUp(size: nat, steps: seq<Step>, id: nat) {
    forall k :: 0 <= k < |steps| ==> BacklogWithin(size, steps[..k], id)
  }

  lemma KeepsUpBefore(size: nat, steps: seq<Step>, id: nat)
    requires steps != [] && KeepsUp(size, steps, id)
    ensures KeepsUp(size, steps[..|steps| - 1], id) && BacklogWithin(size, steps[..|steps| - 1], id)
  {
    var before := steps[..|steps| - 1];
    forall k | 0 <= k < |before|
      ensures BacklogWithin(size, before[..k], id)
    {
      assert before[..k] == steps[..k];
    }
  }

  lemma {:induction false} NothingLostUpTo(size: nat, steps: seq<Step>, id: nat)
    requires size >= 1
    requires Run(Initial(size), steps).Some?
    requires KeepsUp(size, steps, id)
    ensures var sys := Run(Initial(size), steps).value; id < |sys.subs| ==> sys.subs[id].dropped == 0
  {
    if steps != [] {
      var before := steps[..|steps| - 1];
      KeepsUpBefore(size, steps, id);
      NothingLostUpTo(size, before, id);
      EveryReachableStateIsSafe(size, before);
      var sys := Run(Initial(size), before).value;
      if id < |sys.subs| {
        StepLosesNothing(sys, steps[|steps| - 1], id);
      } else {
        NewcomersLostNothing(sys, steps[|steps| - 1], id);
      }
    }
  }

  lemma NewcomersLostNothing(sys: System, step: Step, id: nat)
    requires Next(sys, step).Some? && id >= |sys.subs|
    ensures id < |Next(sys, step).value.subs| ==> Next(sys, step).value.subs[id].dropped == 0
  {
  }

  /** After `steps`, subscriber `id` (if it exists by then) has at most a bufferful of unread events. */
  ghost predicate BacklogWithin(size: nat, steps: seq<Step>, id: nat) {
    var sys := Run(Initial(size), steps);
    sys.Some? && id < |sys.value.subs| ==> sys.value.subs[id].Backlog() <= size
  }

  /** A subscriber that never falls more than a bufferful behind gets every event sent to it, in order. */
  lemma NoLoss(size: nat, steps: seq<Step>, id: nat)
    requires size >= 1
    requires Run(Initial(size), steps).Some?
    requires id < |Run(Initial(size), steps).value.subs|
    requires KeepsUp(size, steps, id)
    ensures var s := Run(Initial(size), steps).value.subs[id]; s.dropped == 0 && s.Kept() == s.attempted
  {
    NothingLostUpTo(size, steps, id);
    EveryReachableStateIsSafe(size, steps);
    var s := Run(Initial(size), steps).value.subs[id];
    WholeSubsequence(s.Kept(), s.attempted);
  }

  // ----- isolation

  /** The same interleaving in which no goroutine or consumer of another subscriber ever gets a turn. */
  function OthersStalled(steps: seq<Step>, id: nat): seq<Step> {
    if steps == [] then []
    else
      var before := OthersStalled(steps[..|steps| - 1], id);
      var last := steps[|steps| - 1];
      if last.Turn? && last.id != id then before else before + [last]
  }

  /** Two states that subscriber `id`, the publishers and the list cannot tell apart. */
  ghost predicate Alike(a: System, b: System, id: nat) {
    && a.size == b.size && a.list == b.list && a.publications == b.publications
    && |a.subs| == |b.subs|
    && (forall k :: 0 <= k < |a.subs| ==> a.subs[k].name == b.subs[k].name)
    && (id < |a.subs| ==> a.subs[id] == b.subs[id])
  }

  lemma OthersTurnAlike(a: System, b: System, id: nat, other: nat, turn: Turn)
    requires Alike(a, b, id) && Next(a, Step.Turn(other, turn)).Some? && other != id
    ensures Alike(Next(a, Step.Turn(other, turn)).value, b, id)
  {
  }

  lemma OwnTurnAlike(a: System, b: System, id: nat, turn: Turn)
    requires Alike(a, b, id) && Next(a, Step.Turn(id, turn)).Some?
    ensures Next(b, Step.Turn(id, turn)).Some?
    ensures Alike(Next(a, Step.Turn(id, turn)).value, Next(b, Step.Turn(id, turn)).value, id)
  {
  }

  lemma SendAlike(a: System, b: System, id: nat, p: nat, parked: bool)
    requires Alike(a, b, id) && Next(a, SendNext(p, parked)).Some?
    ensures Next(b, SendNext(p, parked)).Some?
    ensures Alike(Next(a, SendNext(p, parked)).value, Next(b, SendNext(p, parked)).value, id)
  {
  }

  lemma UnsubscribeAlike(a: System, b: System, id: nat, name: string)
    requires Alike(a, b, id) && Next(a, Unsubscribe(name)).Some?
    ensures Next(b, Unsubscribe(name)).Some?
    ensures Alike(Next(a, Unsubscribe(name)).value, Next(b, Unsubscribe(name)).value, id)
  {
    assert Names(a) == Names(b);
  }

  lemma StepAlike(a: System, b: System, id: nat, step: Step)
    requires Alike(a, b, id) && Next(a, step).Some?
    ensures step.Turn? && step.id != id ==> Alike(Next(a, step).value, b, id)
    ensures !(step.Turn? && step.id != id) ==>
              Next(b, step).Some? && Alike(Next(a, step).value, Next(b, step).value, id)
  {
    match step
    case Subscribe(_) =>
    case Unsubscribe(name) =>
      UnsubscribeAlike(a, b, id, name);
    case BeginPublish(_) =>
    case SendNext(p, parked) =>
      SendAlike(a, b, id, p, parked);
    case Turn(other, turn) =>
      if other == id {
        OwnTurnAlike(a, b, id, turn);
      } else {
        OthersTurnAlike(a, b, id, other, turn);
      }
  }

  /** However slow the other subscribers are, this one sees the same run as if they were never scheduled at all. */
  lemma {:induction false} Isolation(sys: System, steps: seq<Step>, id: nat)
    requires Run(sys, steps).Some?
    ensures Run(sys, OthersStalled(steps, id)).Some?
    ensures Alike(Run(sys, steps).value, Run(sys, OthersStalled(steps, id)).value, id)
  {
    if steps != [] {
      var before := steps[..|steps| - 1];
      Isolation(sys, before, id);
      StepAlike(Run(sys, before).value, Run(sys, OthersStalled(before, id)).value, id, steps[|steps| - 1]);
      var stalled := OthersStalled(steps, id);
      assert stalled == OthersStalled(before, id) || stalled[..|stalled| - 1] == OthersStalled(before, id);
    }
  }

  // ----- the objects of the implementation

  /** A registered consumer. The ghost fields are the record that `Sub` keeps; `View` is the machine state. */
  class Subscriber {
    const name: string
    const bufferSize: nat
    var ch: seq<Event>
    var dispatch: seq<Event>
    var forwarder: Forwarder
    var quitClosed: bool
    var chClosed: bool
    ghost var attempted: seq<Event>
    ghost var consumed: seq<Event>
    ghost var dropped: nat

    ghost function View(): Sub
      reads this
    {
      Sub(name, ch, dispatch, forwarder, quitClosed, chClosed, attempted, consumed, dropped, false)
    }

    ghost predicate Valid()
      reads this
    {
      SubInv(View(), bufferSize)
    }

    /** What the bus expects of a subscriber on its list. */
    ghost predicate Listed(size: nat)
      reads this
    {
      Valid() && bufferSize == size && !quitClosed
    }

    constructor (name: string, bufferSize: nat)
      ensures Valid() && View() == NewSub(name) && this.bufferSize == bufferSize && !quitClosed
    {
      this.name, this.bufferSize := name, bufferSize;
      ch, dispatch, forwarder, quitClosed, chClosed := [], [], Idle, false, false;
      attempted, consumed, dropped := [], [], 0;
      new;
      NewSubIsFine(name, bufferSize);
    }

    /** The non-blocking send of Publish. */
    method TrySend(e: Event, parked: bool)
      modifies this
      ensures View() == SendTo(old(View()), bufferSize, e, parked)
      ensures var handed := parked && old(forwarder) == Idle && old(dispatch) == [];
              var lost := |old(dispatch)| >= 2 * bufferSize && !handed;
              && attempted == old(attempted) + [e]
              && dropped == (if lost then old(dropped) + 1 else old(dropped))
              && forwarder == (if handed then Holding(e) else old(forwarder))
              && dispatch == (if handed || lost then old(dispatch) else old(dispatch) + [e])
              && ch == old(ch) && consumed == old(consumed)
    {
      attempted := attempted + [e];
      if parked && forwarder.Idle? && dispatch == [] {
        forwarder := Holding(e);
      } else if |dispatch| < bufferSize * 2 {
        dispatch := dispatch + [e];
      } else {
        dropped := dropped + 1;
      }
    }

    method CloseQuitOnce()
      requires Valid() && !quitClosed
      modifies this
      ensures Valid() && View() == CloseQuit(old(View()))
    {
      CloseQuitKeepsInv(View(), bufferSize);
      quitClosed := true;
    }

    /** The first case of the outer select: told to quit, the forwarder closes its channel and returns. */
    method CloseAndReturn()
      requires Valid() && forwarder.Idle? && quitClosed
      modifies this
      ensures Valid() && Take(old(View()), bufferSize, CloseCh) == Some(View()) && forwarder == Done
    {
      TurnKeepsInv(View(), bufferSize, CloseCh);
      chClosed := true;
      forwarder := Done;
    }

    /** The second case of the outer select: the forwarder takes the oldest event of `dispatch`. */
    method ReceiveOne()
      requires Valid() && forwarder.Idle? && dispatch != []
      modifies this
      ensures Valid() && Take(old(View()), bufferSize, Receive) == Some(View()) && forwarder.Holding?
      ensures forwarder.event == old(dispatch)[0] && dispatch == old(dispatch)[1..]
    {
      TurnKeepsInv(View(), bufferSize, Receive);
      forwarder, dispatch := Holding(dispatch[0]), dispatch[1..];
    }

    /** The inner select: the event in hand is delivered, or dropped when the consumer is too slow. */
    method ForwardHeld(waiting: bool)
      requires Valid() && forwarder.Holding?
      modifies this
      ensures Valid() && Take(old(View()), bufferSize, Forward(waiting)) == Some(View()) && forwarder == Idle
      ensures var handed := waiting && old(ch) == [];
              var lost := |old(ch)| >= bufferSize && !handed;
              && dropped == (if lost then old(dropped) + 1 else old(dropped))
              && consumed == (if handed then old(consumed) + [old(forwarder.event)] else old(consumed))
              && ch == (if handed || lost then old(ch) else old(ch) + [old(forwarder.event)])
              && dispatch == old(dispatch) && attempted == old(attempted)
    {
      TurnKeepsInv(View(), bufferSize, Forward(waiting));
      var e := forwarder.event;
      if waiting && ch == [] {
        consumed := consumed + [e];
      } else if |ch| < bufferSize {
        ch := ch + [e];
      } else {
        dropped := dropped + 1;
      }
      forwarder := Idle;
    }

    /**
     One iteration of the forwarding loop, left alone by everybody else. `quitFirst` is the choice of the outer select
     when both its cases are ready. The iteration is blocked when neither is.
     */
    method Iterate(quitFirst: bool, waiting: bool) returns (blocked: bool)
      requires Valid() && forwarder.Idle?
      modifies this
      ensures Valid()
      ensures blocked <==> !old(quitClosed) && old(dispatch) == []
      ensures blocked ==> View() == old(View())
      ensures !blocked && old(quitClosed) && (quitFirst || old(dispatch) == []) ==>
                Take(old(View()), bufferSize, CloseCh) == Some(View()) && forwarder == Done
      ensures !blocked && !(old(quitClosed) && (quitFirst || old(dispatch) == [])) ==>
                var held := Take(old(View()), bufferSize, Receive);
                held.Some? && Take(held.value, bufferSize, Forward(waiting)) == Some(View()) && forwarder == Idle
    {
      if quitClosed && (quitFirst || dispatch == []) {
        CloseAndReturn();
        return false;
      }
      if dispatch == [] {
        return true;
      }
      ReceiveOne();
      ForwardHeld(waiting);
      return false;
    }
  }

  class Bus {
    const bufferSize: nat
    var subscribers: seq<Subscriber>

    ghost predicate Valid()
      reads this, subscribers
    {
      && (forall i, j :: 0 <= i < j < |subscribers| ==> subscribers[i] != subscribers[j])
      && (forall i :: 0 <= i < |subscribers| ==> subscribers[i].Listed(bufferSize))
    }

    constructor (bufferSize: nat)
      ensures Valid() && subscribers == [] && this.bufferSize == bufferSize
    {
      this.bufferSize := bufferSize;
      subscribers := [];
    }

    method Append(sub: Subscriber)
      requires Valid() && sub !in subscribers && sub.Listed(bufferSize)
      modifies this
      ensures Valid() && subscribers == old(subscribers) + [sub]
    {
      subscribers := subscribers + [sub];
    }

    method Subscribe(name: string) returns (sub: Subscriber)
      requires Valid()
      modifies this
      ensures Valid() && fresh(sub)
      ensures subscribers == old(subscribers) + [sub]
      ensures sub.View() == NewSub(name)
    {
      sub := new Subscriber(name, bufferSize);
      Append(sub);
    }

    /** The sends of Publish, one after the other, on its copy of the list. */
    static method SendAll(subs: seq<Subscriber>, e: Event, parked: nat -> bool)
      requires forall i, j :: 0 <= i < j < |subs| ==> subs[i] != subs[j]
      modifies subs
      ensures forall i :: 0 <= i < |subs| ==>
                subs[i].View() == SendTo(old(subs[i].View()), subs[i].bufferSize, e, parked(i))
    {
      for k := 0 to |subs|
        invariant forall i :: 0 <= i < k ==>
                    subs[i].View() == SendTo(old(subs[i].View()), subs[i].bufferSize, e, parked(i))
        invariant forall i :: k <= i < |subs| ==> subs[i].View() == old(subs[i].View())
      {
        subs[k].TrySend(e, parked(k));
      }
    }

    /** Sends `e` once to every listed subscriber, each in whatever state it is, and never waits. */
    method Publish(e: Event, parked: nat -> bool)
      requires Valid()
      modifies subscribers
      ensures Valid() && subscribers == old(subscribers)
      ensures forall i :: 0 <= i < |subscribers| ==>
                subscribers[i].View() == SendTo(old(subscribers[i].View()), bufferSize, e, parked(i))
    {
      var subs := subscribers;
      SendAll(subs, e, parked);
      forall i | 0 <= i < |subs|
        ensures subs[i].Listed(bufferSize)
      {
        SendKeepsInv(old(subs[i].View()), bufferSize, e, parked(i));
        assert subs[i].View().quitClosed == old(subs[i].quitClosed);
      }
    }

    ghost function ListedNames(): (names: seq<string>)
      reads this, subscribers
      ensures |names| == |subscribers|
    {
      seq(|subscribers|, i requires 0 <= i < |subscribers| reads this, subscribers => subscribers[i].name)
    }

    /** Closes the `quit` of one listed subscriber and takes it off the list. */
    method Remove(i: nat)
      requires Valid() && i < |subscribers|
      modifies this, subscribers[i]
      ensures Valid()
      ensures subscribers == old(subscribers)[..i] + old(subscribers)[i + 1..]
      ensures old(subscribers)[i].View() == CloseQuit(old(subscribers[i].View()))
    {
      var sub := subscribers[i];
      sub.CloseQuitOnce();
      subscribers := subscribers[..i] + subscribers[i + 1..];
      assert forall k :: 0 <= k < |subscribers| ==>
               subscribers[k] == old(subscribers)[if k < i then k else k + 1] && subscribers[k] != sub;
    }

    /** Takes the first subscriber called `name` off the list and closes its `quit`; nobody when there is none. */
    method Unsubscribe(name: string)
      requires Valid()
      modifies this, subscribers
      ensures Valid()
      ensures var i := FirstNamed(old(ListedNames()), name);
              if i == |old(subscribers)| then subscribers == old(subscribers)
              else
                && subscribers == old(subscribers)[..i] + old(subscribers)[i + 1..]
                && old(subscribers)[i].View() == CloseQuit(old(subscribers[i].View()))
      ensures forall k :: 0 <= k < |old(subscribers)| && k != FirstNamed(old(ListedNames()), name) ==>
                old(subscribers)[k].View() == old(subscribers[k].View())
    {
      ghost var first := FirstNamed(ListedNames(), name);
      for i := 0 to |subscribers|
        invariant i <= first
        invariant forall k :: 0 <= k < |subscribers| ==> ListedNames()[k] == subscribers[k].name
        invariant subscribers == old(subscribers) && Valid()
        invariant forall k :: 0 <= k < |subscribers| ==> subscribers[k].View() == old(subscribers[k].View())
        invariant first == FirstNamed(ListedNames(), name)
      {
        if subscribers[i].name == name {
          assert i == first;
          Remove(i);
          return;
        }
        assert ListedNames()[i] != name;
      }
    }
  }
}
