/**
 A client attaching while the full sync runs: the sync tracker, the broker's queue for the
 client, StreamEvents (apps/daemon/service/service.go: subscribe, then snapshot, then forward),
 the ordered gRPC stream, and the page gate of the window (apps/desktop/window.go).
 */
module Attach {
  import opened Sequences
  import S = SyncTracker
  import B = Broker

  datatype Status = ConnConnecting | ConnConnected | ConnDisconnected | ConnLoggedOut

  datatype Event = SyncEvent(state: S.SyncState) | ConnectionEvent(status: Status) | QrEvent | OtherEvent

  // ---------------------------------------------------------------- the window's gate

  datatype Page = QrPage | SyncPage | ChatPage

  datatype Gate = Gate(connected: bool, syncing: bool, page: Page)

  /** A window that has just dialled the daemon. */
  function Fresh(): (r: Gate) {
    Gate(true, false, QrPage)
  }

  function OnConnection(g: Gate, status: Status): (r: Gate) {
    var g := g.(connected := status.ConnConnected?);
    if status.ConnLoggedOut? then g.(page := QrPage)
    else if g.connected && !g.syncing then g.(page := ChatPage)
    else g
  }

  function OnSync(g: Gate, state: S.SyncState): (r: Gate) {
    if S.InProgress(state.stage) then g.(syncing := true, page := SyncPage)
    else if !g.syncing then g
    else Gate(g.connected, false, if g.connected then ChatPage else g.page)
  }

  function OnEvent(g: Gate, e: Event): (r: Gate) {
    match e
    case SyncEvent(state) => OnSync(g, state)
    case ConnectionEvent(status) => OnConnection(g, status)
    case QrEvent => g.(page := QrPage)
    case OtherEvent => g
  }

  /** The chat list is never shown half-populated. */
  predicate Gated(g: Gate) {
    g.syncing ==> g.page != ChatPage
  }

  lemma EventKeepsGated(g: Gate, e: Event)
    requires Gated(g)
    ensures Gated(OnEvent(g, e))
    ensures OnEvent(g, e).syncing == if e.SyncEvent? then S.InProgress(e.state.stage) else g.syncing
  {
  }

  /** A QR code and a logout show the pairing page, and leave a sync what it is. */
  lemma PairingPageShows(g: Gate, e: Event)
    requires e == QrEvent || e == ConnectionEvent(ConnLoggedOut)
    ensures OnEvent(g, e).page == QrPage && OnEvent(g, e).syncing == g.syncing
    ensures OnEvent(g, e).connected == (g.connected && e == QrEvent)
  {
  }

  /** Leaving the sync page for the chats takes a connected window and a stage that is over. */
  lemma ChatPageOpensOnlyWhenDone(g: Gate, e: Event)
    requires g.page != ChatPage && OnEvent(g, e).page == ChatPage
    ensures OnEvent(g, e).connected && !OnEvent(g, e).syncing
    ensures g.syncing ==> e.SyncEvent? && !S.InProgress(e.state.stage)
  {
  }

  /** The gate after a stream of events. */
  function Drained(g: Gate, events: seq<Event>): (r: Gate) {
    if events == [] then g else OnEvent(Drained(g, events[..|events| - 1]), events[|events| - 1])
  }

  /** The syncing flag after a client has worked off these events: the last sync event decides. */
  function Settled(syncing: bool, events: seq<Event>): (r: bool) {
    if events == [] then syncing
    else
      var last := events[|events| - 1];
      if last.SyncEvent? then S.InProgress(last.state.stage) else Settled(syncing, events[..|events| - 1])
  }

  /** Working off the stream is what makes the window settle. */
  lemma {:induction false} DrainingSettles(g: Gate, events: seq<Event>)
    ensures Drained(g, events).syncing == Settled(g.syncing, events)
    ensures Gated(g) ==> Gated(Drained(g, events))
  {
    if events != [] {
      DrainingSettles(g, events[..|events| - 1]);
      var before := Drained(g, events[..|events| - 1]);
      if Gated(before) {
        EventKeepsGated(before, events[|events| - 1]);
      }
    }
  }

  /** The window's gate. A valid one never shows the chats while a sync is in progress. */
  class WindowGate {
    var connected: bool
    var syncing: bool
    var page: Page

    function View(): (r: Gate)
      reads this
    {
      Gate(connected, syncing, page)
    }

    predicate Valid()
      reads this
    {
      Gated(View())
    }

    constructor ()
      ensures Valid() && View() == Fresh()
    {
      connected, syncing, page := true, false, QrPage;
    }

    /** A connection event never ends a sync, and opens the chats only outside one. */
    method OnConnectionState(status: Status)
      requires Valid()
      modifies this
      ensures Valid() && View() == OnConnection(old(View()), status)
      ensures syncing == old(syncing) && connected == (status == ConnConnected)
      ensures page == ChatPage && old(page) != ChatPage ==> connected && !syncing
      ensures connected && !syncing ==> page == ChatPage
      ensures status == ConnLoggedOut ==> page == QrPage
      ensures status != ConnLoggedOut && !(connected && !syncing) ==> page == old(page)
    {
      connected := status.ConnConnected?;
      if status.ConnLoggedOut? {
        page := QrPage;
        return;
      }
      if connected && !syncing {
        page := ChatPage;
      }
    }

    /** A stage in progress shows its page; the stage that ends a sync opens the chats. */
    method OnSyncState(state: S.SyncState)
      requires Valid()
      modifies this
      ensures Valid() && View() == OnSync(old(View()), state)
      ensures syncing == S.InProgress(state.stage) && connected == old(connected)
      ensures syncing ==> page == SyncPage
      ensures old(syncing) && !syncing && connected ==> page == ChatPage
      ensures !syncing && !(old(syncing) && connected) ==> page == old(page)
    {
      match state.stage {
        case Connecting | Contacts | History | Finalizing =>
          syncing := true;
        case _ =>
          if !syncing {
            return;
          }
          syncing := false;
          if connected {
            page := ChatPage;
          }
          return;
      }
      page := SyncPage;
    }

    /** The window's dispatch of one event. */
    method HandleEvent(e: Event)
      requires Valid()
      modifies this
      ensures Valid() && View() == OnEvent(old(View()), e)
      ensures e.QrEvent? ==> page == QrPage && syncing == old(syncing) && connected == old(connected)
      ensures e.OtherEvent? ==> View() == old(View())
    {
      match e {
        case SyncEvent(state) => OnSyncState(state);
        case ConnectionEvent(status) => OnConnectionState(status);
        case QrEvent => page := QrPage;
        case OtherEvent =>
      }
    }

    /** The stream's reading loop: in the end the last sync event decides whether it is syncing. */
    method HandleStream(events: seq<Event>)
      requires Valid()
      modifies this
      ensures Valid() && View() == Drained(old(View()), events)
      ensures syncing == Settled(old(syncing), events)
    {
      ghost var g := View();
      var i := 0;
      while i < |events|
        invariant 0 <= i <= |events|
        invariant Valid() && View() == Drained(g, events[..i])
      {
        assert events[..i + 1][..i] == events[..i];
        HandleEvent(events[i]);
        i := i + 1;
      }
      assert events[..i] == events;
      DrainingSettles(g, events);
    }
  }

  // ---------------------------------------------------------------- the composed system

  datatype Phase = Detached | Subscribed | SentConnection | Streaming

  /**
   The tracker, the client's subscription, what the stream has in transit (wire) and what the
   client has received but not worked off (inbox). stale: the latest sync event was dropped
   because the client's queue was full.
   */
  datatype System = System(
    run: S.Run, phase: Phase, chan: B.Chan<Event>, wire: seq<Event>, inbox: seq<Event>, gate: Gate, stale: bool)

  /** Break is a transport error, after which the client attaches again. */
  datatype Step =
    | TrackerStep(step: S.Step)
    | PublishConnection(status: Status)
    | PublishQr
    | PublishOther
    | Subscribe
    | SendConnection(status: Status)
    | SendQr
    | SendSyncState
    | Forward
    | Recv
    | Deliver
    | Break
    | RestartDaemon

  function Start(flag: bool): (r: System) {
    System(S.Start(flag), Detached, B.Opened(), [], [], Fresh(), false)
  }

  predicate Enabled(s: System, step: Step) {
    match step
    case TrackerStep(t) => S.Enabled(s.run, t)
    case Subscribe => s.phase == Detached
    case SendConnection(_) => s.phase == Subscribed
    case SendQr => s.phase == SentConnection
    case SendSyncState => s.phase == SentConnection
    case Forward => s.phase == Streaming && s.chan.queue != []
    case Recv => s.wire != []
    case Deliver => s.inbox != []
    case Break => s.phase != Detached
    case _ => true
  }

  /** Broker.Publish, as this client sees it. */
  function Publish(s: System, e: Event): (r: System) {
    if s.phase == Detached then s
    else
      var dropped := |s.chan.queue| >= B.SUBSCRIBER_BUFFER;
      s.(chan := B.Offer(s.chan, e), stale := if e.SyncEvent? then dropped else s.stale)
  }

  function PublishAll(s: System, states: seq<S.SyncState>): (r: System) {
    if states == [] then s else Publish(PublishAll(s, states[..|states| - 1]), SyncEvent(states[|states| - 1]))
  }

  /** The subscription and what is in transit are gone; what the client has received stays. */
  function Broken(s: System): (r: System) {
    s.(phase := Detached, chan := B.Opened(), wire := [], stale := false)
  }

  function Next(s: System, step: Step): (r: System)
    requires Enabled(s, step)
  {
    match step
    case TrackerStep(t) => PublishAll(s.(run := S.Next(s.run, t)), S.React(s.run, t).published)
    case PublishConnection(status) => Publish(s, ConnectionEvent(status))
    case PublishQr => Publish(s, QrEvent)
    case PublishOther => Publish(s, OtherEvent)
    case Subscribe => s.(phase := Subscribed, chan := B.Opened())
    case SendConnection(status) => s.(phase := SentConnection, wire := s.wire + [ConnectionEvent(status)])
    case SendQr => s.(wire := s.wire + [QrEvent])
    case SendSyncState => s.(phase := Streaming, wire := s.wire + [SyncEvent(S.StateOf(s.run.t))])
    case Forward => s.(chan := B.Receive(s.chan), wire := s.wire + [s.chan.queue[0]])
    case Recv => s.(wire := s.wire[1..], inbox := s.inbox + [s.wire[0]])
    case Deliver => s.(inbox := s.inbox[1..], gate := OnEvent(s.gate, s.inbox[0]))
    case Break => Broken(s)
    case RestartDaemon => Broken(s).(run := S.Start(s.run.stored))
  }

  function After(s: System, steps: seq<Step>): (r: System)
    requires Allowed(s, steps)
    decreases |steps|, 1
  {
    if steps == [] then s else Next(After(s, steps[..|steps| - 1]), steps[|steps| - 1])
  }

  predicate Allowed(s: System, steps: seq<Step>)
    decreases |steps|, 0
  {
    steps != [] ==>
      var before, last := steps[..|steps| - 1], steps[|steps| - 1];
      Allowed(s, before) && Enabled(After(s, before), last)
  }

  predicate Reaches(flag: bool, steps: seq<Step>, s: System) {
    Allowed(Start(flag), steps) && s == After(Start(flag), steps)
  }

  // ---------------------------------------------------------------- invariants

  function Syncing(s: System): (r: bool) {
    S.InProgress(s.run.t.stage)
  }

  /** Everything on its way to a client that is attached. */
  function Pending(s: System): (r: seq<Event>) {
    s.inbox + s.wire + s.chan.queue
  }

  /** Where the window settles once it has worked all that off. */
  function Settles(s: System): (r: bool) {
    Settled(s.gate.syncing, Pending(s))
  }

  /**
   Before the snapshot, whatever sync events are queued end on the current stage; from the
   snapshot on, so does everything on its way to the window.
   */
  ghost predicate UnderWay(s: System) {
    if s.phase == Streaming then Settles(s) == Syncing(s)
    else Settled(Syncing(s), s.chan.queue) == Syncing(s)
  }

  ghost predicate Inv(s: System) {
    && Gated(s.gate)
    && (s.phase == Detached ==> s.chan == B.Opened() && s.wire == [])
    && (s.stale ==> s.chan.missed > 0)
    && (!s.stale ==> UnderWay(s))
  }

  lemma SettledAppend(syncing: bool, events: seq<Event>, e: Event)
    ensures Settled(syncing, events + [e]) == if e.SyncEvent? then S.InProgress(e.state.stage) else Settled(syncing,
            events)
  {
    assert (events + [e])[..|events|] == events;
  }

  lemma {:induction false} SettledConcat(syncing: bool, a: seq<Event>, b: seq<Event>)
    ensures Settled(syncing, a + b) == Settled(Settled(syncing, a), b)
  {
    if b == [] {
      assert a + b == a;
    } else {
      assert (a + b)[..|a + b| - 1] == a + b[..|b| - 1];
      SettledConcat(syncing, a, b[..|b| - 1]);
    }
  }

  /** Every change of the answer "is a sync in progress" is published, as the last thing said. */
  lemma StageChangesArePublished(r: S.Run, step: S.Step)
    ensures var reaction := S.React(r, step);
            && |reaction.published| <= 1
            && (reaction.published == [] ==> reaction.t.stage == r.t.stage)
            && (reaction.published != [] ==> reaction.published[0].stage == reaction.t.stage)
            && S.Next(r, step).t == reaction.t
  {
  }

  /** One event offered to the client; `before` is the tracker before the event, if it is about it. */
  lemma PublishKeepsInv(s: System, before: S.Run, e: Event)
    requires Inv(s.(run := before))
    requires if e.SyncEvent? then S.InProgress(e.state.stage) == Syncing(s) else before == s.run
    ensures Inv(Publish(s, e))
  {
    if s.phase != Detached && |s.chan.queue| < B.SUBSCRIBER_BUFFER {
      assert Pending(Publish(s, e)) == Pending(s) + [e];
      SettledAppend(s.gate.syncing, Pending(s), e);
      SettledAppend(Syncing(s), s.chan.queue, e);
    }
  }

  lemma TrackerKeepsInv(s: System, step: S.Step)
    requires Inv(s) && S.Enabled(s.run, step)
    ensures Inv(Next(s, TrackerStep(step)))
  {
    StageChangesArePublished(s.run, step);
    var moved := s.(run := S.Next(s.run, step));
    var published := S.React(s.run, step).published;
    if published != [] {
      assert moved.(run := s.run) == s;
      PublishKeepsInv(moved, s.run, SyncEvent(published[0]));
      assert published[..0] == [] && PublishAll(moved, []) == moved;
    }
  }

  /** The snapshot, put behind what an earlier stream left, and before what the queue holds. */
  lemma SnapshotKeepsInv(s: System)
    requires Inv(s) && Enabled(s, SendSyncState)
    ensures Inv(Next(s, SendSyncState))
  {
    var snapshot := SyncEvent(S.StateOf(s.run.t));
    assert Pending(Next(s, SendSyncState)) == (s.inbox + s.wire + [snapshot]) + s.chan.queue;
    SettledAppend(s.gate.syncing, s.inbox + s.wire, snapshot);
    SettledConcat(s.gate.syncing, s.inbox + s.wire + [snapshot], s.chan.queue);
  }

  /** Handing an event on, receiving it and working it off change nothing about where the window settles. */
  lemma StreamSettles(s: System, step: Step)
    requires Enabled(s, step) && (step.Forward? || step.Recv? || step.Deliver?)
    ensures Settles(Next(s, step)) == Settles(s)
  {
    var n := Next(s, step);
    match step
    case Forward =>
      assert Pending(n) == Pending(s);
    case Recv =>
      assert Pending(n) == Pending(s);
    case Deliver =>
      assert Pending(s) == [s.inbox[0]] + Pending(n);
      SettledConcat(s.gate.syncing, [s.inbox[0]], Pending(n));
      EventSettles(s.gate, s.inbox[0]);
  }

  lemma EventSettles(g: Gate, e: Event)
    ensures OnEvent(g, e).syncing == Settled(g.syncing, [e])
  {
    assert [e][..0] == [];
  }

  lemma StreamKeepsInv(s: System, step: Step)
    requires Inv(s) && Enabled(s, step) && (step.Forward? || step.Recv? || step.Deliver?)
    ensures Inv(Next(s, step))
  {
    StreamSettles(s, step);
    if step.Deliver? {
      EventKeepsGated(s.gate, s.inbox[0]);
    }
  }

  lemma StepKeepsInv(s: System, step: Step)
    requires Inv(s) && Enabled(s, step)
    ensures Inv(Next(s, step))
  {
    match step
    case TrackerStep(t) => TrackerKeepsInv(s, t);
    case PublishConnection(status) => PublishKeepsInv(s, s.run, ConnectionEvent(status));
    case PublishQr => PublishKeepsInv(s, s.run, QrEvent);
    case PublishOther => PublishKeepsInv(s, s.run, OtherEvent);
    case SendSyncState => SnapshotKeepsInv(s);
    case Forward => StreamKeepsInv(s, step);
    case Recv => StreamKeepsInv(s, step);
    case Deliver => StreamKeepsInv(s, step);
    case _ =>
  }

  lemma {:induction false} RunsKeepInv(flag: bool, steps: seq<Step>, s: System)
    requires Reaches(flag, steps, s)
    ensures Inv(s)
  {
    if steps == [] {
      assert Settled(Syncing(s), []) == Syncing(s);
    } else {
      var before := After(Start(flag), steps[..|steps| - 1]);
      RunsKeepInv(flag, steps[..|steps| - 1], before);
      StepKeepsInv(before, steps[|steps| - 1]);
    }
  }

  /**
   End to end, for every interleaving of sync callbacks, other events, broken streams, new
   attaches and restarts of the daemon: once the client has worked off its stream and the latest
   sync event was not dropped, the window is in its syncing state exactly when the tracker's
   stage is one of the four in progress.
   */
  lemma WindowAgreesWithTracker(flag: bool, steps: seq<Step>, s: System)
    requires Reaches(flag, steps, s)
    requires s.phase == Streaming && Pending(s) == [] && !s.stale
    ensures s.gate.syncing <==> S.InProgress(s.run.t.stage)
  {
    RunsKeepInv(flag, steps, s);
  }

  /** In particular when this stream dropped nothing at all; and the chat page is hidden meanwhile. */
  lemma NothingDroppedAgrees(flag: bool, steps: seq<Step>, s: System)
    requires Reaches(flag, steps, s)
    ensures Gated(s.gate)
    ensures s.phase == Streaming && Pending(s) == [] && s.chan.missed == 0 ==>
              (s.gate.syncing <==> S.InProgress(s.run.t.stage))
  {
    RunsKeepInv(flag, steps, s);
    if s.phase == Streaming && Pending(s) == [] && s.chan.missed == 0 {
      WindowAgreesWithTracker(flag, steps, s);
    }
  }

  // ---------------------------------------------------------------- dropped sync events

  /**
   What a drop does. A step of the tracker leaves the window settling on the tracker's answer
   exactly when the client's queue had room, or the answer did not change.
   */
  lemma StepReachesWindowIff(flag: bool, steps: seq<Step>, s: System, step: S.Step)
    requires Reaches(flag, steps, s) && s.phase == Streaming && !s.stale && S.Enabled(s.run, step)
    ensures var after := Next(s, TrackerStep(step));
            (Settles(after) <==> Syncing(after))
            <==> (|s.chan.queue| < B.SUBSCRIBER_BUFFER || (Syncing(s) <==> Syncing(after)))
  {
    RunsKeepInv(flag, steps, s);
    TrackerKeepsInv(s, step);
    StageChangesArePublished(s.run, step);
    var moved, published := s.(run := S.Next(s.run, step)), S.React(s.run, step).published;
    assert published != [] ==> published[..0] == [] && PublishAll(moved, []) == moved;
  }

  /** In particular, the end of a sync reaches the window exactly when the queue has room for it. */
  lemma CompletionReachesWindowIff(flag: bool, steps: seq<Step>, s: System)
    requires Reaches(flag, steps, s) && s.phase == Streaming && !s.stale
    requires S.Enabled(s.run, S.DoFinishEnds) && Syncing(s)
    ensures var after := Next(s, TrackerStep(S.DoFinishEnds));
            && after.run.t.stage == S.Done
            && (!Settles(after) <==> |s.chan.queue| < B.SUBSCRIBER_BUFFER)
  {
    StepReachesWindowIff(flag, steps, s, S.DoFinishEnds);
    StageChangesArePublished(s.run, S.DoFinishEnds);
    PublishAllKeepsRun(s.(run := S.Next(s.run, S.DoFinishEnds)), S.React(s.run, S.DoFinishEnds).published);
  }

  lemma {:induction false} PublishAllKeepsRun(s: System, states: seq<S.SyncState>)
    ensures PublishAll(s, states).run == s.run
  {
    if states != [] {
      PublishAllKeepsRun(s, states[..|states| - 1]);
    }
  }

  /** The sync is over, and the window will settle on syncing all the same. */
  ghost predicate Stranded(s: System) {
    s.phase == Streaming && S.Quiet(s.run) && Gated(s.gate) && Settles(s)
  }

  /** Steps that can make a difference to such a window. */
  predicate MakesNews(step: Step) {
    step == TrackerStep(S.DoReset) || step.Break? || step.RestartDaemon?
  }

  lemma StrandedStep(s: System, step: Step)
    requires Stranded(s) && Enabled(s, step) && !MakesNews(step)
    ensures Stranded(Next(s, step))
  {
    match step
    case TrackerStep(t) => S.QuietUntilReset(s.run, t);
    case Forward => StreamSettles(s, step);
    case Recv => StreamSettles(s, step);
    case Deliver =>
      StreamSettles(s, step);
      EventKeepsGated(s.gate, s.inbox[0]);
    case PublishConnection(status) => StrandedPublish(s, ConnectionEvent(status));
    case PublishQr => StrandedPublish(s, QrEvent);
    case PublishOther => StrandedPublish(s, OtherEvent);
  }

  lemma StrandedPublish(s: System, e: Event)
    requires Stranded(s) && !e.SyncEvent?
    ensures Stranded(Publish(s, e))
  {
    SettledAppend(s.gate.syncing, Pending(s), e);
    assert s.inbox + s.wire + (s.chan.queue + [e]) == Pending(s) + [e];
  }

  /**
   On the same stream such a window stays behind whatever happens short of a Reset, and with
   nothing left to read it hides the chats although the sync is done.
   */
  lemma {:induction false} StrandedOnThisStream(s: System, more: seq<Step>)
    requires Stranded(s) && Allowed(s, more) && forall step :: step in more ==> !MakesNews(step)
    ensures var end := After(s, more);
            && Stranded(end)
            && (Pending(end) == [] ==> end.gate.syncing && end.gate.page != ChatPage && end.run.t.stage == S.Done)
  {
    if more != [] {
      InitAndLast(more);
      StrandedOnThisStream(s, more[..|more| - 1]);
      StrandedStep(After(s, more[..|more| - 1]), more[|more| - 1]);
    }
  }

  /** A Reset frees it exactly when the queue has room for the news. */
  lemma ResetFreesIff(s: System)
    requires Stranded(s)
    ensures !Settles(Next(s, TrackerStep(S.DoReset))) <==> |s.chan.queue| < B.SUBSCRIBER_BUFFER
  {
    StageChangesArePublished(s.run, S.DoReset);
    var moved, published := s.(run := S.Next(s.run, S.DoReset)), S.React(s.run, S.DoReset).published;
    assert published[..0] == [] && PublishAll(moved, []) == moved;
    SettledAppend(s.gate.syncing, Pending(s), SyncEvent(published[0]));
    assert s.inbox + s.wire + (s.chan.queue + [SyncEvent(published[0])]) == Pending(s) + [SyncEvent(published[0])];
  }

  ghost predicate NoSync(events: seq<Event>) {
    forall e :: e in events ==> !e.SyncEvent?
  }

  /** With the tracker done, all that is still said about the sync is that it is over. */
  ghost predicate OnlyOver(events: seq<Event>) {
    forall e :: e in events && e.SyncEvent? ==> !S.InProgress(e.state.stage)
  }

  ghost predicate AfterTheSync(s: System) {
    S.Quiet(s.run) && Gated(s.gate) && OnlyOver(s.inbox) && OnlyOver(s.wire) && NoSync(s.chan.queue)
  }

  lemma AfterTheSyncStep(s: System, step: Step)
    requires AfterTheSync(s) && Enabled(s, step) && step != TrackerStep(S.DoReset) && !step.RestartDaemon?
    ensures AfterTheSync(Next(s, step))
    ensures Next(s, step).gate.syncing == (s.gate.syncing && !(step.Deliver? && s.inbox[0].SyncEvent?))
    ensures NoSync(s.inbox) && NoSync(s.wire) && !step.SendSyncState? ==>
              NoSync(Next(s, step).inbox) && NoSync(Next(s, step).wire)
  {
    match step
    case TrackerStep(t) => S.QuietUntilReset(s.run, t);
    case Deliver =>
      assert s.inbox[0] in s.inbox;
      EventKeepsGated(s.gate, s.inbox[0]);
    case Recv =>
      assert s.wire[0] in s.wire;
    case Forward =>
      assert s.chan.queue[0] in s.chan.queue;
    case _ =>
  }

  /** Was a snapshot worked off on the way? After the sync there is no other sync event. */
  predicate HeardSnapshot(s: System, more: seq<Step>)
    requires Allowed(s, more)
  {
    more != [] &&
      var before, last := more[..|more| - 1], more[|more| - 1];
      HeardSnapshot(s, before) || (last.Deliver? && After(s, before).inbox[0].SyncEvent?)
  }

  /**
   A window left syncing after the end of the sync stays so, short of a Reset and as long as the
   daemon lives, exactly until it works off the snapshot of a later attach.
   */
  lemma {:induction false} StrandedUntilSnapshot(s: System, more: seq<Step>)
    requires AfterTheSync(s) && s.gate.syncing && NoSync(s.inbox) && NoSync(s.wire)
    requires Allowed(s, more) && TrackerStep(S.DoReset) !in more && RestartDaemon !in more
    ensures var end := After(s, more);
            && AfterTheSync(end)
            && (end.gate.syncing <==> !HeardSnapshot(s, more))
            && (SendSyncState !in more ==> end.gate.syncing && NoSync(end.inbox) && NoSync(end.wire))
  {
    if more != [] {
      InitAndLast(more);
      StrandedUntilSnapshot(s, more[..|more| - 1]);
      var before, last := After(s, more[..|more| - 1]), more[|more| - 1];
      AfterTheSyncStep(before, last);
      if SendSyncState !in more && last.Deliver? {
        assert before.inbox[0] in before.inbox;
      }
    }
  }

  /** And a broken stream brings one: attaching again opens the chats, with the tracker as it was. */
  lemma ReattachFreesWindow(s: System) returns (more: seq<Step>)
    requires AfterTheSync(s) && s.gate.syncing && s.phase == Streaming && s.inbox == []
    ensures Allowed(s, more) && After(s, more).run == s.run && After(s, more).gate == Gate(true, false, ChatPage)
  {
    var n;
    more, n := Reattach(s);
    more, n := ReceiveBoth(s, more, n, ConnectionEvent(ConnConnected), SyncEvent(S.StateOf(s.run.t)));
    more, n := WorkOff(s, more, n, S.StateOf(s.run.t));
  }

  lemma ReceiveBoth(s: System, steps: seq<Step>, t: System, a: Event, b: Event) returns (more: seq<Step>, n: System)
    requires Allowed(s, steps) && t == After(s, steps) && t.wire == [a, b] && t.inbox == []
    ensures Allowed(s, more) && n == After(s, more) && n == t.(wire := [], inbox := [a, b])
  {
    var mid;
    more, mid := Continue(s, steps, t, Recv);
    assert mid == t.(wire := [b], inbox := [a]);
    more, n := Continue(s, more, mid, Recv);
  }

  lemma Reattach(s: System) returns (more: seq<Step>, n: System)
    requires s.phase == Streaming
    ensures Allowed(s, more) && n == After(s, more)
    ensures n.run == s.run && n.gate == s.gate && n.inbox == s.inbox
    ensures n.wire == [ConnectionEvent(ConnConnected), SyncEvent(S.StateOf(s.run.t))]
  {
    more, n := Continue(s, [], s, Break);
    more, n := Continue(s, more, n, Subscribe);
    more, n := Continue(s, more, n, SendConnection(ConnConnected));
    more, n := Continue(s, more, n, SendSyncState);
  }

  lemma WorkOff(s: System, steps: seq<Step>, t: System, state: S.SyncState) returns (more: seq<Step>, n: System)
    requires Allowed(s, steps) && t == After(s, steps) && t.gate.syncing
    requires t.inbox == [ConnectionEvent(ConnConnected), SyncEvent(state)] && !S.InProgress(state.stage)
    ensures Allowed(s, more) && n == After(s, more) && n.run == t.run && n.gate == Gate(true, false, ChatPage)
  {
    more, n := Continue(s, steps, t, Deliver);
    assert n.inbox == [SyncEvent(state)];
    more, n := Continue(s, more, n, Deliver);
  }

  lemma Continue(s: System, steps: seq<Step>, t: System, step: Step) returns (longer: seq<Step>, n: System)
    requires Allowed(s, steps) && t == After(s, steps) && Enabled(t, step)
    ensures Allowed(s, longer) && n == After(s, longer) == Next(t, step)
  {
    longer, n := steps + [step], Next(t, step);
    assert longer[..|steps|] == steps;
  }

  /** A full queue when an undisturbed sync completes strands the window. */
  lemma DroppedCompletionStrandsWindow(flag: bool, steps: seq<Step>, s: System)
    requires Reaches(flag, steps, s) && s.phase == Streaming && !s.stale
    requires S.Inv(s.run) && S.Enabled(s.run, S.DoFinishEnds) && |s.chan.queue| == B.SUBSCRIBER_BUFFER
    ensures Stranded(Next(s, TrackerStep(S.DoFinishEnds)))
  {
    RunsKeepInv(flag, steps, s);
    CompletionReachesWindowIff(flag, steps, s);
    TrackerKeepsInv(s, S.DoFinishEnds);
    StageChangesArePublished(s.run, S.DoFinishEnds);
    var moved, published := s.(run := S.Next(s.run, S.DoFinishEnds)), S.React(s.run, S.DoFinishEnds).published;
    assert published[..0] == [] && PublishAll(moved, []) == moved;
  }

  lemma Extend(flag: bool, steps: seq<Step>, s: System, step: Step) returns (longer: seq<Step>, n: System)
    requires Reaches(flag, steps, s) && Enabled(s, step)
    ensures n == Next(s, step) && Reaches(flag, longer, n)
  {
    longer, n := Continue(Start(flag), steps, s, step);
  }

  /** A run of the tracker with no client attached. */
  lemma {:induction false} Unheard(todo: seq<S.Step>) returns (steps: seq<Step>, s: System)
    requires S.Allowed(S.Start(false), todo)
    ensures Reaches(false, steps, s) && s == Start(false).(run := S.After(S.Start(false), todo))
  {
    if todo == [] {
      steps, s := [], Start(false);
    } else {
      var last := todo[|todo| - 1];
      steps, s := Unheard(todo[..|todo| - 1]);
      NobodyListens(s.(run := S.Next(s.run, last)), S.React(s.run, last).published);
      steps, s := Extend(false, steps, s, TrackerStep(last));
    }
  }

  /** A client attaches while the sync is being finished. */
  lemma AttachLate() returns (steps: seq<Step>, s: System)
    ensures Reaches(false, steps, s) && s.phase == Streaming && !s.stale && s.chan.queue == []
    ensures S.Inv(s.run) && s.run.storing == 1 && s.run.t.stage == S.Finalizing
    ensures s.gate == Fresh() && s.inbox == [] &&
            s.wire == [ConnectionEvent(ConnConnected), SyncEvent(S.StateOf(s.run.t))]
  {
    var todo, r := S.FlagGetsStored();
    steps, s := Unheard(todo);
    steps, s := Extend(false, steps, s, Subscribe);
    steps, s := Extend(false, steps, s, SendConnection(ConnConnected));
    steps, s := Extend(false, steps, s, SendSyncState);
  }

  lemma {:induction false} NobodyListens(s: System, states: seq<S.SyncState>)
    requires s.phase == Detached
    ensures PublishAll(s, states) == s
  {
    if states != [] {
      NobodyListens(s, states[..|states| - 1]);
    }
  }

  /** A client that reads nothing lets other events pile up. */
  lemma {:induction false} PileUp(steps: seq<Step>, s: System, n: nat) returns (longer: seq<Step>, t: System)
    requires Reaches(false, steps, s) && s.phase == Streaming && s.chan.queue == [] && n <= B.SUBSCRIBER_BUFFER
    ensures Reaches(false, longer, t) && t == s.(chan := t.chan)
    ensures |t.chan.queue| == n && forall e :: e in t.chan.queue ==> e == OtherEvent
  {
    if n == 0 {
      longer, t := steps, s;
    } else {
      longer, t := PileUp(steps, s, n - 1);
      longer, t := Extend(false, longer, t, PublishOther);
    }
  }

  lemma {:induction false} OthersDoNothing(g: Gate, events: seq<Event>, others: seq<Event>)
    requires forall e :: e in others ==> e == OtherEvent
    ensures Drained(g, events + others) == Drained(g, events)
  {
    if others == [] {
      assert events + others == events;
    } else {
      var most := others[..|others| - 1];
      assert others[|others| - 1] in others && forall e :: e in most ==> e in others;
      assert (events + others)[..|events + others| - 1] == events + most;
      OthersDoNothing(g, events, most);
    }
  }

  /**
   A run that does it: a client attaches while a sync is being finished and falls 256 events
   behind. It stays on the sync page.
   */
  lemma DroppedCompletionHappens() returns (steps: seq<Step>, s: System)
    ensures Reaches(false, steps, s) && s.phase == Streaming && !s.stale
    ensures S.Inv(s.run) && S.Enabled(s.run, S.DoFinishEnds) && |s.chan.queue| == B.SUBSCRIBER_BUFFER
    ensures var end := Next(s, TrackerStep(S.DoFinishEnds));
            Stranded(end) && Drained(end.gate, Pending(end)) == Gate(true, true, SyncPage)
  {
    steps, s := AttachLate();
    steps, s := PileUp(steps, s, B.SUBSCRIBER_BUFFER);
    DroppedCompletionStrandsWindow(false, steps, s);
    var end := Next(s, TrackerStep(S.DoFinishEnds));
    FullQueueKeepsStream(s.(run := S.Next(s.run, S.DoFinishEnds)), S.React(s.run, S.DoFinishEnds).published);
    OthersDoNothing(end.gate, end.wire, end.chan.queue);
    assert Pending(end) == end.wire + end.chan.queue;
    AttachedLatePage(end.wire);
  }

  lemma AttachedLatePage(wire: seq<Event>)
    requires |wire| == 2 && wire[0] == ConnectionEvent(ConnConnected)
    requires wire[1].SyncEvent? && S.InProgress(wire[1].state.stage)
    ensures Drained(Fresh(), wire) == Gate(true, true, SyncPage)
  {
    assert wire[..1][..0] == [];
  }

  lemma {:induction false} FullQueueKeepsStream(s: System, states: seq<S.SyncState>)
    requires s.phase == Streaming && |s.chan.queue| == B.SUBSCRIBER_BUFFER
    ensures var t := PublishAll(s, states);
            && t.chan.queue == s.chan.queue && t.wire == s.wire
            && t.inbox == s.inbox && t.gate == s.gate && t.phase == s.phase
  {
    if states != [] {
      FullQueueKeepsStream(s, states[..|states| - 1]);
    }
  }
}
