/**
 The daemon's event fan-out (apps/daemon/service/broker.go): one bounded queue per client, and
 a publisher that drops an event for a client whose queue is full rather than wait.
 */
module Broker {
  import opened Sequences

  const SUBSCRIBER_BUFFER: nat := 256

  // ---------------------------------------------------------------- one subscriber

  /** A client's queue, with what it has taken out, what it missed and what it was offered. */
  datatype Chan<E> = Chan(queue: seq<E>, closed: bool, received: seq<E>, missed: nat, offered: seq<E>)

  function Opened<E>(): (r: Chan<E>) {
    Chan([], false, [], 0, [])
  }

  /** A non-blocking send. */
  function Offer<E>(c: Chan<E>, evt: E): (r: Chan<E>) {
    if |c.queue| < SUBSCRIBER_BUFFER
    then c.(queue := c.queue + [evt], offered := c.offered + [evt])
    else c.(missed := c.missed + 1, offered := c.offered + [evt])
  }

  function Receive<E>(c: Chan<E>): (r: Chan<E>) {
    if c.queue == [] then c else c.(queue := c.queue[1..], received := c.received + [c.queue[0]])
  }

  /** What the client has or will get is an in-order part of what was offered; nothing else is lost. */
  ghost predicate Faithful<E>(c: Chan<E>) {
    && |c.queue| <= SUBSCRIBER_BUFFER
    && Subsequence(c.received + c.queue, c.offered)
    && |c.received + c.queue| + c.missed == |c.offered|
  }

  lemma {:induction false} SubsequenceFacts<E>(a: seq<E>, b: seq<E>, x: E)
    requires Subsequence(a, b)
    ensures Subsequence(a + [x], b + [x]) && Subsequence(a, b + [x])
    ensures |a| <= |b| && (|a| == |b| ==> a == b)
  {
    assert (a + [x])[..|a|] == a && (b + [x])[..|b|] == b;
    SubsequenceLength(a, b);
  }

  lemma {:induction false} SubsequenceLength<E>(a: seq<E>, b: seq<E>)
    requires Subsequence(a, b)
    ensures |a| <= |b| && (|a| == |b| ==> a == b)
  {
    if a != [] && b != [] {
      if Subsequence(a, b[..|b| - 1]) {
        SubsequenceLength(a, b[..|b| - 1]);
      }
      if a[|a| - 1] == b[|b| - 1] && Subsequence(a[..|a| - 1], b[..|b| - 1]) {
        SubsequenceLength(a[..|a| - 1], b[..|b| - 1]);
        assert a == a[..|a| - 1] + [a[|a| - 1]] && b == b[..|b| - 1] + [b[|b| - 1]];
      }
    }
  }

  lemma OfferKeepsFaithful<E>(c: Chan<E>, evt: E)
    requires Faithful(c)
    ensures Faithful(Offer(c, evt))
  {
    var got := c.received + c.queue;
    SubsequenceFacts(got, c.offered, evt);
    assert c.received + (c.queue + [evt]) == got + [evt];
  }

  lemma ReceiveKeepsFaithful<E>(c: Chan<E>)
    requires Faithful(c)
    ensures Faithful(Receive(c)) && Receive(c).offered == c.offered
  {
    if c.queue != [] {
      assert Receive(c).received + Receive(c).queue == c.received + c.queue;
    }
  }

  /** Without a gap exactly when nothing was missed, that is, no publish met a full queue. */
  lemma GaplessIff<E>(c: Chan<E>)
    requires Faithful(c)
    ensures c.received + c.queue == c.offered <==> c.missed == 0
  {
    SubsequenceLength(c.received + c.queue, c.offered);
  }

  // ---------------------------------------------------------------- a subscriber's channel

  class Channel<E> {
    var queue: seq<E>
    var closed: bool
    ghost var received: seq<E>
    ghost var missed: nat
    ghost var offered: seq<E>

    ghost function View(): (r: Chan<E>)
      reads this
    {
      Chan(queue, closed, received, missed, offered)
    }

    constructor ()
      ensures View() == Opened()
    {
      queue, closed, received, missed, offered := [], false, [], 0, [];
    }

    /** Sending on a closed channel would panic. */
    method TrySend(evt: E)
      requires !closed
      modifies this
      ensures View() == Offer(old(View()), evt)
    {
      if |queue| < SUBSCRIBER_BUFFER {
        queue := queue + [evt];
      } else {
        missed := missed + 1;
      }
      offered := offered + [evt];
    }

    /** Closing twice would panic. */
    method Close()
      requires !closed
      modifies `closed
      ensures closed
    {
      closed := true;
    }

    /** The client takes the oldest queued event, if there is one; closing leaves the queue readable. */
    method Take() returns (ok: bool, evt: seq<E>)
      modifies this
      ensures View() == Receive(old(View()))
      ensures ok == (old(queue) != []) && (ok ==> evt == [old(queue)[0]])
    {
      if queue == [] {
        return false, [];
      }
      evt := [queue[0]];
      received := received + evt;
      queue := queue[1..];
      return true, evt;
    }
  }

  // ---------------------------------------------------------------- any interleaving

  /** What can happen around one subscription, in any order. */
  datatype Step<E> = Published(evt: E) | Taken | Left

  function ChanNext<E>(c: Chan<E>, step: Step<E>): (r: Chan<E>) {
    match step
    case Published(evt) => if c.closed then c else Offer(c, evt)
    case Taken => Receive(c)
    case Left => c.(closed := true)
  }

  function ChanRun<E>(steps: seq<Step<E>>): (r: Chan<E>) {
    if steps == [] then Opened() else ChanNext(ChanRun(steps[..|steps| - 1]), steps[|steps| - 1])
  }

  /** The events published while the client was subscribed. */
  function PublishedMeanwhile<E>(steps: seq<Step<E>>): (r: seq<E>) {
    if steps == [] then []
    else
      var before, last := steps[..|steps| - 1], steps[|steps| - 1];
      PublishedMeanwhile(before) + if last.Published? && !HasLeft(before) then [last.evt] else []
  }

  predicate HasLeft<E>(steps: seq<Step<E>>) {
    steps != [] && (steps[|steps| - 1].Left? || HasLeft(steps[..|steps| - 1]))
  }

  /**
   Whatever the interleaving: what a client has received and still has queued is an in-order
   part of what was published while it was subscribed, with gaps only where events were
   dropped, and at most SUBSCRIBER_BUFFER events wait.
   */
  lemma {:induction false} SubscriberSeesInOrder<E>(steps: seq<Step<E>>)
    ensures var c := ChanRun(steps);
            && Faithful(c)
            && c.offered == PublishedMeanwhile(steps)
            && (c.closed <==> HasLeft(steps))
            && (c.received + c.queue == PublishedMeanwhile(steps) <==> c.missed == 0)
  {
    if steps != [] {
      var before, last := steps[..|steps| - 1], steps[|steps| - 1];
      SubscriberSeesInOrder(before);
      var c := ChanRun(before);
      if last.Published? {
        OfferKeepsFaithful(c, last.evt);
      }
      ReceiveKeepsFaithful(c);
    }
    GaplessIff(ChanRun(steps));
  }

  // ---------------------------------------------------------------- any number of subscribers

  /** The registered channels and those closed since, by id. */
  datatype Fanout<E> = Fanout(subs: map<nat, Chan<E>>, gone: map<nat, Chan<E>>, next: nat)

  datatype FanStep<E> = Join | Leave(id: nat) | Send(evt: E) | Read(id: nat)

  function FanNext<E>(f: Fanout<E>, step: FanStep<E>): (r: Fanout<E>) {
    match step
    case Join => f.(subs := f.subs[f.next := Opened()], next := f.next + 1)
    case Leave(id) =>
      if id !in f.subs then f
      else f.(subs := f.subs - {id}, gone := f.gone[id := f.subs[id].(closed := true)])
    case Send(evt) => f.(subs := map id | id in f.subs :: Offer(f.subs[id], evt))
    case Read(id) =>
      if id in f.subs then f.(subs := f.subs[id := Receive(f.subs[id])])
      else if id in f.gone then f.(gone := f.gone[id := Receive(f.gone[id])])
      else f
  }

  function FanRun<E>(steps: seq<FanStep<E>>): (r: Fanout<E>) {
    if steps == [] then Fanout(map[], map[], 0) else FanNext(FanRun(steps[..|steps| - 1]), steps[|steps| - 1])
  }

  /** What one channel sees of a run: the steps since its Join that concern it. */
  function Own<E>(steps: seq<FanStep<E>>, id: nat): (r: seq<Step<E>>) {
    if steps == [] then []
    else
      var before, last := steps[..|steps| - 1], steps[|steps| - 1];
      Own(before, id) + if id < FanRun(before).next then OwnStep(last, id) else []
  }

  function OwnStep<E>(step: FanStep<E>, id: nat): (r: seq<Step<E>>) {
    match step
    case Join => []
    case Leave(other) => if other == id then [Left] else []
    case Send(evt) => [Published(evt)]
    case Read(other) => if other == id then [Taken] else []
  }

  /** The channel of an id that was handed out, open or closed. */
  ghost predicate ChannelIs<E>(f: Fanout<E>, id: nat, c: Chan<E>) {
    if id in f.subs then id !in f.gone && f.subs[id] == c && !c.closed
    else id in f.gone && f.gone[id] == c && c.closed
  }

  function Moved<E>(c: Chan<E>, own: seq<Step<E>>): (r: Chan<E>) {
    if own == [] then c else ChanNext(c, own[0])
  }

  lemma SendOffers<E>(f: Fanout<E>, evt: E)
    ensures var g := FanNext(f, Send(evt));
            && g.subs.Keys == f.subs.Keys && g.next == f.next
            && forall id :: id in f.subs ==> g.subs[id] == Offer(f.subs[id], evt)
  {
  }

  lemma OwnStepRuns<E>(own: seq<Step<E>>, step: FanStep<E>, id: nat)
    ensures ChanRun(own + OwnStep(step, id)) == Moved(ChanRun(own), OwnStep(step, id))
  {
    var more := OwnStep(step, id);
    if more == [] {
      assert own + more == own;
    } else {
      assert (own + more)[..|own + more| - 1] == own;
    }
  }

  /** A step moves a channel by that channel's own part of it. */
  lemma StepMovesOne<E>(f: Fanout<E>, step: FanStep<E>, id: nat, c: Chan<E>)
    requires id < f.next && ChannelIs(f, id, c)
    ensures ChannelIs(FanNext(f, step), id, Moved(c, OwnStep(step, id)))
  {
  }

  /**
   For every run with any number of subscribers: ids are handed out once each, counting up, and
   every channel is what its own steps make it, whatever the others do.
   */
  lemma {:induction false} EachSubscriberAlone<E>(steps: seq<FanStep<E>>, id: nat)
    ensures var f := FanRun(steps);
            if id < f.next then ChannelIs(f, id, ChanRun(Own(steps, id)))
            else id !in f.subs && id !in f.gone && Own(steps, id) == []
  {
    if steps != [] {
      var before, last := steps[..|steps| - 1], steps[|steps| - 1];
      EachSubscriberAlone(before, id);
      var f, own := FanRun(before), Own(before, id);
      if id < f.next {
        OwnStepRuns(own, last, id);
        StepMovesOne(f, last, id, ChanRun(own));
      } else {
        assert own + [] == [];
      }
    }
  }

  /** So each of them sees an in-order part of what was sent from its Join to its Leave. */
  lemma EverySubscriberSeesInOrder<E>(steps: seq<FanStep<E>>, id: nat)
    requires id < FanRun(steps).next
    ensures var f, own := FanRun(steps), Own(steps, id);
            var c := ChanRun(own);
            && ChannelIs(f, id, c) && Faithful(c)
            && c.offered == PublishedMeanwhile(own)
            && (c.received + c.queue == PublishedMeanwhile(own) <==> c.missed == 0)
  {
    EachSubscriberAlone(steps, id);
    SubscriberSeesInOrder(Own(steps, id));
  }

  // ---------------------------------------------------------------- the broker

  datatype FanRecord<E> = FanRecord(steps: seq<FanStep<E>>, f: Fanout<E>)

  /** A run with the state it leads to. */
  type FanTrace<E> = x: FanRecord<E> | x.f == FanRun(x.steps) ghost witness FanRecord([], Fanout(map[], map[], 0))

  ghost function Extended<E>(x: FanTrace<E>, step: FanStep<E>): (y: FanTrace<E>)
    ensures y.f == FanNext(x.f, step) && y.steps == x.steps + [step]
  {
    assert (x.steps + [step])[..|x.steps|] == x.steps;
    FanRecord(x.steps + [step], FanNext(x.f, step))
  }

  class Hub<E> {
    var subs: map<nat, Channel<E>>
    var next: nat
    ghost var trace: FanTrace<E>

    /** Every registered channel is open and registered once. */
    ghost predicate AllOpen()
      reads this, subs.Values
    {
      && (forall id :: id in subs ==> !subs[id].closed)
      && forall i, j :: i in subs && j in subs && i != j ==> subs[i] != subs[j]
    }

    /**
     The registered channels are open, each registered once under an id handed out before, and
     are what the run of the calls so far makes of them.
     */
    ghost predicate Valid()
      reads this, subs.Values
    {
      && next == trace.f.next && subs.Keys == trace.f.subs.Keys
      && AllOpen()
      && forall id :: id in subs ==> id < next && subs[id].View() == trace.f.subs[id]
    }

    /** So every registered channel holds an in-order part of what was published since its Join. */
    lemma SeesInOrder(id: nat)
      requires Valid() && id in subs
      ensures var c, own := subs[id].View(), Own(trace.steps, id);
              && id < next && !c.closed && Faithful(c)
              && c == ChanRun(own) && c.offered == PublishedMeanwhile(own)
              && (c.received + c.queue == PublishedMeanwhile(own) <==> c.missed == 0)
    {
      EachSubscriberAlone(trace.steps, id);
      SubscriberSeesInOrder(Own(trace.steps, id));
    }

    constructor ()
      ensures Valid() && subs == map[] && next == 0
    {
      subs, next, trace := map[], 0, FanRecord([], Fanout(map[], map[], 0));
    }

    method Subscribe() returns (id: nat, ch: Channel<E>)
      requires Valid()
      modifies this
      ensures Valid() && fresh(ch) && ch.View() == Opened()
      ensures id == old(next) && next == old(next) + 1
      ensures id !in old(subs) && subs == old(subs)[id := ch]
      ensures trace.steps == old(trace.steps) + [Join]
    {
      ch := new Channel<E>();
      id := next;
      next := next + 1;
      subs := subs[id := ch];
      trace := Extended(trace, Join);
    }

    /** May be called any number of times; only the first call finds the subscription. */
    method Unsubscribe(id: nat)
      requires Valid()
      modifies `subs, `trace, if id in subs then {subs[id]} else {}
      ensures Valid() && trace.steps == old(trace.steps) + [Leave(id)]
      ensures subs == old(subs) - {id}
      ensures id in old(subs) ==> old(subs[id]).closed && old(subs[id]).queue == old(subs[id].queue)
    {
      if id in subs {
        var existing := subs[id];
        subs := subs - {id};
        existing.Close();
      }
      trace := Extended(trace, Leave(id));
    }

    /** Offers the event to every subscriber, whatever order the map is walked in. */
    method Publish(evt: E)
      requires Valid()
      modifies `trace, subs.Values
      ensures Valid() && trace.steps == old(trace.steps) + [Send(evt)]
      ensures forall id :: id in subs ==> subs[id].View() == Offer(old(subs[id].View()), evt)
    {
      SendOffers(trace.f, evt);
      trace := Extended(trace, Send(evt));
      OfferAll(evt);
    }

    method OfferAll(evt: E)
      requires AllOpen()
      modifies subs.Values
      ensures AllOpen()
      ensures forall id :: id in subs ==> subs[id].View() == Offer(old(subs[id].View()), evt)
    {
      var todo := subs.Keys;
      while todo != {}
        invariant todo <= subs.Keys
        invariant forall id :: id in todo ==> subs[id].View() == old(subs[id].View())
        invariant forall id :: id in subs && id !in todo ==> subs[id].View() == Offer(old(subs[id].View()), evt)
        decreases todo
      {
        var id :| id in todo;
        assert !old(subs[id].closed);
        OfferOne(subs[id], evt);
        todo := todo - {id};
      }
    }

    method OfferOne(ch: Channel<E>, evt: E)
      requires !ch.closed
      modifies ch
      ensures ch.View() == Offer(old(ch.View()), evt)
    {
      ch.TrySend(evt);
    }

    /** A client reads from its stream. */
    method Next(id: nat) returns (ok: bool, evt: seq<E>)
      requires Valid() && id in subs
      modifies `trace, subs[id]
      ensures Valid() && trace.steps == old(trace.steps) + [Read(id)]
      ensures subs[id].View() == Receive(old(subs[id].View()))
      ensures ok == (old(subs[id].queue) != []) && (ok ==> evt == [old(subs[id].queue)[0]])
    {
      ok, evt := subs[id].Take();
      trace := Extended(trace, Read(id));
    }
  }
}
