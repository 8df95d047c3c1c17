/**
 Typing indicators (apps/desktop/presence.go): who is shown as typing in each chat, against the
 main loop's one-shot timers that take a forgotten indicator down. Times are milliseconds.
 */
module Presence {

  const TYPING_EXPIRY: nat := 12_000

  datatype ChatPresence = ChatPresence(typists: map<string, string>, online: bool, lastSeen: int)

  datatype Update = Update(
    chatJid: string, userJid: string, userName: string,
    typing: bool, recording: bool, online: bool, lastSeen: int)

  /** A one-shot source of the main loop, with what its callback captured. */
  datatype Source = Source(chatJid: string, userJid: string, due: nat)

  /** The window's fields, the live sources, and when each user last sent a typing update. */
  datatype State = State(
    presence: map<string, ChatPresence>,
    typingTimers: map<string, nat>,
    sources: map<nat, Source>,
    nextHandle: nat,
    now: nat,
    lastTyping: map<(string, string), nat>)

  function Initial(): (r: State) {
    State(map[], map[], map[], 1, 0, map[])
  }

  function TimerKey(chatJid: string, userJid: string): (r: string) {
    chatJid + "\0" + userJid
  }

  predicate NoNul(s: string) {
    forall i :: 0 <= i < |s| ==> s[i] != '\0'
  }

  /** The map key names one chat and one user, because a JID holds no NUL. */
  lemma TimerKeyInjective(a: string, u: string, b: string, v: string)
    requires NoNul(a) && NoNul(b) && TimerKey(a, u) == TimerKey(b, v)
    ensures a == b && u == v
  {
    var k := TimerKey(a, u);
    assert k[|a|] == '\0' && k[|b|] == '\0';
    assert forall i :: 0 <= i < |a| ==> k[i] == a[i] != '\0';
    assert forall i :: 0 <= i < |b| ==> k[i] == b[i] != '\0';
    assert k[..|a|] == a && k[..|b|] == b;
    assert k[|a| + 1..] == u && k[|b| + 1..] == v;
  }

  function ChatState(s: State, chatJid: string): (r: ChatPresence) {
    if chatJid in s.presence then s.presence[chatJid] else ChatPresence(map[], false, 0)
  }

  /** The part of a JID before the first '@', unless nothing stands there. */
  function JidUser(jid: string): (r: string) {
    var at := IndexOfAt(jid);
    if at > 0 then jid[..at] else jid
  }

  /** The first '@', or -1. */
  function IndexOfAt(s: string): (r: int)
    ensures -1 <= r < |s|
    ensures r == -1 ==> '@' !in s
    ensures r >= 0 ==> s[r] == '@' && '@' !in s[..r]
  {
    if s == "" then -1
    else if s[0] == '@' then 0
    else
      var rest := IndexOfAt(s[1..]);
      assert s == [s[0]] + s[1..];
      if rest < 0 then -1
      else
        assert s[..rest + 1] == [s[0]] + s[1..][..rest];
        rest + 1
  }

  function DisplayName(u: Update): (r: string) {
    if u.userName != "" then u.userName else JidUser(u.userJid)
  }

  /** Replaces a pending timer of the same chat and user by a new one. */
  function ScheduleTypingExpiry(s: State, chatJid: string, userJid: string): (r: State) {
    var key := TimerKey(chatJid, userJid);
    var live := if key in s.typingTimers then s.sources - {s.typingTimers[key]} else s.sources;
    s.(sources := live[s.nextHandle := Source(chatJid, userJid, s.now + TYPING_EXPIRY)],
       typingTimers := s.typingTimers[key := s.nextHandle],
       nextHandle := s.nextHandle + 1,
       lastTyping := s.lastTyping[(chatJid, userJid) := s.now])
  }

  function TypingPart(s: State, u: Update): (r: State) {
    var chat := ChatState(s, u.chatJid);
    if u.typing || u.recording then
      var typing := chat.(typists := chat.typists[u.userJid := DisplayName(u)]);
      ScheduleTypingExpiry(s.(presence := s.presence[u.chatJid := typing]), u.chatJid, u.userJid)
    else
      s.(presence := s.presence[u.chatJid := chat.(typists := chat.typists - {u.userJid})])
  }

  /** Online transitions only come from direct chats, where chat and contact are the same JID. */
  function OnlinePart(s: State, u: Update): (r: State) {
    if u.userJid != u.chatJid then s
    else
      var chat := ChatState(s, u.chatJid);
      var seen := if u.lastSeen > 0 then u.lastSeen else chat.lastSeen;
      s.(presence := s.presence[u.chatJid := ChatPresence(if u.online then chat.typists else map[], u.online, seen)])
  }

  function OnPresence(s: State, u: Update): (r: State) {
    OnlinePart(TypingPart(s, u), u)
  }

  /** A source fires: the main loop drops it and runs its callback. */
  function Expire(s: State, handle: nat): (r: State)
    requires handle in s.sources
  {
    var src := s.sources[handle];
    var s := s.(sources := s.sources - {handle}, typingTimers := s.typingTimers - {TimerKey(src.chatJid, src.userJid)});
    if src.chatJid !in s.presence then s
    else
      var chat := s.presence[src.chatJid];
      s.(presence := s.presence[src.chatJid := chat.(typists := chat.typists - {src.userJid})])
  }

  // ---------------------------------------------------------------- runs

  datatype Step = Receive(u: Update) | Fire(handle: nat) | Tick(ms: nat)

  /** Sources fire when they are due; the clock does not run past one. */
  predicate Enabled(s: State, step: Step) {
    match step
    case Receive(u) => NoNul(u.chatJid)
    case Fire(handle) => handle in s.sources && s.sources[handle].due == s.now
    case Tick(ms) => forall h :: h in s.sources ==> s.now + ms <= s.sources[h].due
  }

  function Next(s: State, step: Step): (r: State)
    requires Enabled(s, step)
  {
    match step
    case Receive(u) => OnPresence(s, u)
    case Fire(handle) => Expire(s, handle)
    case Tick(ms) => s.(now := s.now + ms)
  }

  function After(steps: seq<Step>): (r: State)
    requires Allowed(steps)
    decreases |steps|, 1
  {
    if steps == [] then Initial() else Next(After(steps[..|steps| - 1]), steps[|steps| - 1])
  }

  predicate Allowed(steps: seq<Step>)
    decreases |steps|, 0
  {
    steps != [] ==> Allowed(steps[..|steps| - 1]) && Enabled(After(steps[..|steps| - 1]), steps[|steps| - 1])
  }

  predicate Reaches(steps: seq<Step>, s: State) {
    Allowed(steps) && s == After(steps)
  }

  predicate Shown(s: State, chatJid: string, userJid: string) {
    chatJid in s.presence && userJid in s.presence[chatJid].typists
  }

  /** The timer map and the live sources are one-to-one, each under its own chat and user. */
  ghost predicate TimersMatch(s: State) {
    && (forall k :: k in s.typingTimers ==>
          s.typingTimers[k] in s.sources
          && k == TimerKey(s.sources[s.typingTimers[k]].chatJid, s.sources[s.typingTimers[k]].userJid))
    && (forall h :: h in s.sources ==> h < s.nextHandle && NoNul(s.sources[h].chatJid) && Registered(s, h))
  }

  ghost predicate Registered(s: State, h: nat)
    requires h in s.sources
  {
    var key := TimerKey(s.sources[h].chatJid, s.sources[h].userJid);
    key in s.typingTimers && s.typingTimers[key] == h
  }

  /** Every source was armed by the last typing update of its chat and user. */
  ghost predicate DueDates(s: State) {
    forall h :: h in s.sources ==> DueDate(s, h)
  }

  ghost predicate DueDate(s: State, h: nat)
    requires h in s.sources
  {
    var src := s.sources[h];
    (src.chatJid, src.userJid) in s.lastTyping
    && src.due == s.lastTyping[(src.chatJid, src.userJid)] + TYPING_EXPIRY
    && s.now <= src.due
  }

  ghost predicate HasTimer(s: State, chatJid: string, userJid: string) {
    var key := TimerKey(chatJid, userJid);
    && key in s.typingTimers && s.typingTimers[key] in s.sources
    && s.sources[s.typingTimers[key]].chatJid == chatJid
    && s.sources[s.typingTimers[key]].userJid == userJid
  }

  ghost predicate ShownHaveTimers(s: State) {
    forall chatJid, userJid :: Shown(s, chatJid, userJid) ==> NoNul(chatJid) && HasTimer(s, chatJid, userJid)
  }

  ghost predicate Inv(s: State) {
    TimersMatch(s) && DueDates(s) && ShownHaveTimers(s)
  }

  lemma ScheduleKeepsTimers(s: State, chatJid: string, userJid: string)
    requires TimersMatch(s) && DueDates(s) && NoNul(chatJid)
    ensures var t := ScheduleTypingExpiry(s, chatJid, userJid);
            TimersMatch(t) && DueDates(t) && HasTimer(t, chatJid, userJid)
    ensures forall c, u :: HasTimer(s, c, u) ==> HasTimer(ScheduleTypingExpiry(s, chatJid, userJid), c, u)
  {
    var t := ScheduleTypingExpiry(s, chatJid, userJid);
    var key := TimerKey(chatJid, userJid);
    forall h | h in t.sources
      ensures h < t.nextHandle && NoNul(t.sources[h].chatJid) && Registered(t, h) && DueDate(t, h)
    {
      if h != s.nextHandle {
        assert h in s.sources && Registered(s, h) && DueDate(s, h);
        if TimerKey(s.sources[h].chatJid, s.sources[h].userJid) != key {
          assert (s.sources[h].chatJid, s.sources[h].userJid) != (chatJid, userJid);
        }
      }
    }
    forall k | k in t.typingTimers
      ensures t.typingTimers[k] in t.sources
      ensures k == TimerKey(t.sources[t.typingTimers[k]].chatJid, t.sources[t.typingTimers[k]].userJid)
    {
      if k != key {
        assert s.typingTimers[k] in s.sources;
      }
    }
    forall c, u | HasTimer(s, c, u) ensures HasTimer(t, c, u) {
      if TimerKey(c, u) == key {
        TimerKeyInjective(chatJid, userJid, c, u);
      }
    }
  }

  lemma TypingPartKeepsInv(s: State, u: Update)
    requires Inv(s) && NoNul(u.chatJid)
    ensures Inv(TypingPart(s, u))
  {
    var t := TypingPart(s, u);
    var base := s.(presence := t.presence);
    if u.typing || u.recording {
      ScheduleKeepsTimers(base, u.chatJid, u.userJid);
    }
    forall c, v | Shown(t, c, v) ensures NoNul(c) && HasTimer(t, c, v) {
      if (c, v) != (u.chatJid, u.userJid) {
        assert Shown(s, c, v);
        assert HasTimer(base, c, v);
      }
    }
  }

  lemma OnlinePartKeepsInv(s: State, u: Update)
    requires Inv(s)
    ensures Inv(OnlinePart(s, u))
  {
    var t := OnlinePart(s, u);
    forall c, v | Shown(t, c, v) ensures NoNul(c) && HasTimer(t, c, v) {
      assert Shown(s, c, v) && HasTimer(s, c, v);
    }
    forall h | h in t.sources ensures Registered(t, h) && DueDate(t, h) {
      assert Registered(s, h) && DueDate(s, h);
    }
  }

  lemma UpdateKeepsInv(s: State, u: Update)
    requires Inv(s) && NoNul(u.chatJid)
    ensures Inv(OnPresence(s, u))
  {
    TypingPartKeepsInv(s, u);
    OnlinePartKeepsInv(TypingPart(s, u), u);
  }

  lemma ExpireKeepsInv(s: State, handle: nat)
    requires Inv(s) && handle in s.sources
    ensures Inv(Expire(s, handle))
  {
    var t, src := Expire(s, handle), s.sources[handle];
    assert Registered(s, handle);
    forall h | h in t.sources
      ensures h < t.nextHandle && NoNul(t.sources[h].chatJid) && Registered(t, h) && DueDate(t, h)
    {
      assert h in s.sources && Registered(s, h) && DueDate(s, h);
    }
    forall c, v | Shown(t, c, v) ensures NoNul(c) && HasTimer(t, c, v) {
      assert Shown(s, c, v) && HasTimer(s, c, v);
      if TimerKey(c, v) == TimerKey(src.chatJid, src.userJid) {
        TimerKeyInjective(c, v, src.chatJid, src.userJid);
      }
    }
  }

  lemma StepKeepsInv(s: State, step: Step)
    requires Inv(s) && Enabled(s, step)
    ensures Inv(Next(s, step))
  {
    match step
    case Receive(u) => UpdateKeepsInv(s, u);
    case Fire(handle) => ExpireKeepsInv(s, handle);
    case Tick(ms) =>
      var t := Next(s, step);
      forall h | h in t.sources ensures DueDate(t, h) && Registered(t, h) {
        assert DueDate(s, h) && Registered(s, h);
      }
      forall c, v | Shown(t, c, v) ensures NoNul(c) && HasTimer(t, c, v) {
        assert Shown(s, c, v) && HasTimer(s, c, v);
      }
  }

  lemma {:induction false} RunsKeepInv(steps: seq<Step>, s: State)
    requires Reaches(steps, s)
    ensures Inv(s)
  {
    if steps != [] {
      var before := After(steps[..|steps| - 1]);
      RunsKeepInv(steps[..|steps| - 1], before);
      StepKeepsInv(before, steps[|steps| - 1]);
    }
  }

  /** The user's one live source in that chat, and when it is due. */
  ghost predicate OneSource(s: State, chatJid: string, userJid: string, due: nat) {
    var key := TimerKey(chatJid, userJid);
    && key in s.typingTimers && s.typingTimers[key] in s.sources
    && s.sources[s.typingTimers[key]] == Source(chatJid, userJid, due)
    && forall g :: g in s.sources && s.sources[g].chatJid == chatJid && s.sources[g].userJid == userJid ==>
        g == s.typingTimers[key]
  }

  lemma OneSourceEach(s: State, chatJid: string, userJid: string)
    requires TimersMatch(s) && HasTimer(s, chatJid, userJid)
    ensures OneSource(s, chatJid, userJid, s.sources[s.typingTimers[TimerKey(chatJid, userJid)]].due)
  {
    forall g | g in s.sources && s.sources[g].chatJid == chatJid && s.sources[g].userJid == userJid
      ensures g == s.typingTimers[TimerKey(chatJid, userJid)]
    {
      assert Registered(s, g);
    }
  }

  lemma UpdateEffects(s: State, u: Update)
    requires Inv(s) && NoNul(u.chatJid)
    ensures var t := OnPresence(s, u);
            && Inv(t)
            && (u.typing || u.recording ==> OneSource(t, u.chatJid, u.userJid, s.now + TYPING_EXPIRY))
            && (Shown(t, u.chatJid, u.userJid) <==> (u.typing || u.recording) && (u.userJid != u.chatJid || u.online))
            && forall c, v :: c != u.chatJid ==> (Shown(t, c, v) <==> Shown(s, c, v))
  {
    UpdateKeepsInv(s, u);
    ShownAfterUpdateIff(s, u);
    if u.typing || u.recording {
      OneSourceEach(OnPresence(s, u), u.chatJid, u.userJid);
    }
  }

  /** In every run: a shown user has exactly one live timer, armed by their last typing update. */
  lemma ShownHasOneTimer(steps: seq<Step>, s: State, chatJid: string, userJid: string) returns (h: nat)
    requires Reaches(steps, s) && Shown(s, chatJid, userJid)
    ensures h in s.sources && s.sources[h].chatJid == chatJid && s.sources[h].userJid == userJid
    ensures forall g :: g in s.sources && s.sources[g].chatJid == chatJid && s.sources[g].userJid == userJid ==> g == h
    ensures (chatJid, userJid) in s.lastTyping && s.sources[h].due == s.lastTyping[(chatJid, userJid)] + TYPING_EXPIRY
  {
    RunsKeepInv(steps, s);
    assert HasTimer(s, chatJid, userJid);
    h := s.typingTimers[TimerKey(chatJid, userJid)];
    assert DueDate(s, h);
    OneSourceEach(s, chatJid, userJid);
  }

  /** No indicator outlives its last typing update by more than twelve seconds. */
  lemma NoStaleIndicator(steps: seq<Step>, s: State, chatJid: string, userJid: string)
    requires Reaches(steps, s) && Shown(s, chatJid, userJid)
    ensures (chatJid, userJid) in s.lastTyping && s.now <= s.lastTyping[(chatJid, userJid)] + TYPING_EXPIRY
  {
    RunsKeepInv(steps, s);
    var h := ShownHasOneTimer(steps, s, chatJid, userJid);
    assert DueDate(s, h);
  }

  /** An indicator only goes when it is withdrawn, the contact goes offline, or it has aged out. */
  lemma IndicatorGoesOnlyIf(steps: seq<Step>, s: State, step: Step, chatJid: string, userJid: string)
    requires Reaches(steps, s) && Enabled(s, step)
    requires Shown(s, chatJid, userJid) && !Shown(Next(s, step), chatJid, userJid)
    ensures match step
            case Receive(u) =>
              && u.chatJid == chatJid
              && ((u.userJid == userJid && !u.typing && !u.recording) || (u.userJid == chatJid && !u.online))
            case Fire(_) => (chatJid, userJid) in s.lastTyping &&
                s.now == s.lastTyping[(chatJid, userJid)] + TYPING_EXPIRY
            case Tick(_) => false
  {
    if step.Fire? {
      var h := ShownHasOneTimer(steps, s, chatJid, userJid);
    }
  }

  // ---------------------------------------------------------------- direct chats

  /**
   Who is shown after an update. In a direct chat the online flag of the same update decides as
   well, because an update that says offline clears the typists it has just added.
   */
  lemma ShownAfterUpdateIff(s: State, u: Update)
    ensures Shown(OnPresence(s, u), u.chatJid, u.userJid) <==>
              (u.typing || u.recording) && (u.userJid != u.chatJid || u.online)
  {
  }

  /** The names shown, and the contact's status line, after an update. */
  lemma UpdateWrites(s: State, u: Update)
    ensures var t := OnPresence(s, u);
            && u.chatJid in t.presence
            && (Shown(t, u.chatJid, u.userJid) && u.userName != "" ==>
                  t.presence[u.chatJid].typists[u.userJid] == u.userName)
            && (Shown(t, u.chatJid, u.userJid) && u.userName == "" ==>
                  t.presence[u.chatJid].typists[u.userJid] == JidUser(u.userJid))
            && (u.userJid == u.chatJid ==>
                  && t.presence[u.chatJid].online == u.online
                  && t.presence[u.chatJid].lastSeen ==
                       if u.lastSeen > 0 then u.lastSeen else ChatState(s, u.chatJid).lastSeen)
            && (u.userJid != u.chatJid ==>
                  && t.presence[u.chatJid].online == ChatState(s, u.chatJid).online
                  && t.presence[u.chatJid].lastSeen == ChatState(s, u.chatJid).lastSeen)
            && forall c :: c != u.chatJid ==>
                 (c in t.presence <==> c in s.presence) && (c in s.presence ==> t.presence[c] == s.presence[c])
  {
  }

  /** An update of one user leaves the others shown, unless it says that a direct contact went offline. */
  lemma OthersStayShown(s: State, u: Update, v: string)
    requires v != u.userJid
    ensures Shown(OnPresence(s, u), u.chatJid, v) <==>
              Shown(s, u.chatJid, v) && (u.userJid != u.chatJid || u.online)
  {
  }

  /** What the daemon publishes for a chat state: it carries no online flag (wa/presence.go). */
  function TypingUpdate(chatJid: string, sender: string, name: string, composing: bool, audio: bool): (r: Update) {
    Update(chatJid, sender, name, composing, audio, false, 0)
  }

  /** And for a contact's online status: it carries no chat state. */
  function OnlineUpdate(jid: string, name: string, online: bool, lastSeen: int): (r: Update) {
    Update(jid, jid, name, false, false, online, lastSeen)
  }

  predicate FromDaemon(u: Update) {
    || u == TypingUpdate(u.chatJid, u.userJid, u.userName, u.typing, u.recording)
    || u == OnlineUpdate(u.userJid, u.userName, u.online, u.lastSeen)
  }

  /**
   A direct chat shows its contact as typing only while the last typing update said online as
   well. For every run, whoever sends the updates: if none of a contact says both, the contact
   is never shown.
   */
  lemma {:induction false} NeverShownUnlessOnline(steps: seq<Step>, s: State, jid: string)
    requires Reaches(steps, s)
    requires forall u :: Receive(u) in steps && u.chatJid == u.userJid == jid ==>
               !((u.typing || u.recording) && u.online)
    ensures !Shown(s, jid, jid)
  {
    if steps != [] {
      var before, last := steps[..|steps| - 1], steps[|steps| - 1];
      assert last in steps && forall step :: step in before ==> step in steps;
      NeverShownUnlessOnline(before, After(before), jid);
      if last.Receive? && last.u.chatJid == last.u.userJid == jid {
        ShownAfterUpdateIff(After(before), last.u);
      }
    }
  }

  /**
   So with the updates that the daemon publishes, no run ever shows the typing indicator of a
   direct chat; in a group, where sender and chat differ, a typing update always does.
   */
  lemma DirectChatNeverShowsTyping(steps: seq<Step>, s: State)
    requires Reaches(steps, s) && forall u :: Receive(u) in steps ==> FromDaemon(u)
    ensures forall jid :: !Shown(s, jid, jid)
    ensures forall chatJid, sender, name, composing, audio :: sender != chatJid && (composing || audio) ==>
              Shown(OnPresence(s, TypingUpdate(chatJid, sender, name, composing, audio)), chatJid, sender)
  {
    forall jid ensures !Shown(s, jid, jid) {
      NeverShownUnlessOnline(steps, s, jid);
    }
  }

  // ---------------------------------------------------------------- the window's methods

  /**
   The window's presence state. A valid one has the invariant of all runs: a live timer for
   every user shown, armed by their last typing update and not overdue.
   */
  class PresenceView {
    var presence: map<string, ChatPresence>
    var typingTimers: map<string, nat>
    /** The main loop's side: sources that have neither fired nor been removed. */
    var sources: map<nat, Source>
    var nextHandle: nat
    var now: nat
    ghost var lastTyping: map<(string, string), nat>

    ghost function View(): (r: State)
      reads this
    {
      State(presence, typingTimers, sources, nextHandle, now, lastTyping)
    }

    ghost predicate Valid()
      reads this
    {
      Inv(View())
    }

    constructor ()
      ensures Valid() && View() == Initial()
    {
      presence, typingTimers, sources, nextHandle, now, lastTyping := map[], map[], map[], 1, 0, map[];
    }

    /** glib.SourceRemove. */
    method SourceRemove(handle: nat)
      modifies `sources
      ensures sources == old(sources) - {handle}
    {
      sources := sources - {handle};
    }

    /** glib.TimeoutAdd for the expiry callback. */
    method TimeoutAdd(chatJid: string, userJid: string, due: nat) returns (handle: nat)
      modifies `sources, `nextHandle
      ensures handle == old(nextHandle) && nextHandle == handle + 1
      ensures sources == old(sources)[handle := Source(chatJid, userJid, due)]
    {
      handle := nextHandle;
      nextHandle := nextHandle + 1;
      sources := sources[handle := Source(chatJid, userJid, due)];
    }

    /** Time passes, up to the next source. */
    method Wait(ms: nat)
      requires Valid() && Enabled(View(), Tick(ms))
      modifies `now
      ensures Valid() && now == old(now) + ms
    {
      StepKeepsInv(View(), Tick(ms));
      now := now + ms;
    }

    /** Afterwards the user has exactly one live source, due in twelve seconds; nobody lost theirs. */
    method Schedule(chatJid: string, userJid: string)
      requires TimersMatch(View()) && DueDates(View()) && NoNul(chatJid)
      modifies `sources, `nextHandle, `typingTimers, `lastTyping
      ensures View() == ScheduleTypingExpiry(old(View()), chatJid, userJid)
      ensures TimersMatch(View()) && DueDates(View()) && OneSource(View(), chatJid, userJid, now + TYPING_EXPIRY)
      ensures forall c, v :: HasTimer(old(View()), c, v) ==> HasTimer(View(), c, v)
    {
      ScheduleKeepsTimers(View(), chatJid, userJid);
      OneSourceEach(ScheduleTypingExpiry(View(), chatJid, userJid), chatJid, userJid);
      Rearm(chatJid, userJid);
    }

    method Rearm(chatJid: string, userJid: string)
      modifies `sources, `nextHandle, `typingTimers, `lastTyping
      ensures View() == ScheduleTypingExpiry(old(View()), chatJid, userJid)
    {
      var key := TimerKey(chatJid, userJid);
      if key in typingTimers {
        SourceRemove(typingTimers[key]);
      }
      var handle := TimeoutAdd(chatJid, userJid, now + TYPING_EXPIRY);
      typingTimers := typingTimers[key := handle];
      lastTyping := lastTyping[(chatJid, userJid) := now];
    }

    /** A typing user gets one live source, due in twelve seconds, and is shown unless offline. */
    method Update(u: Update)
      requires Valid() && NoNul(u.chatJid)
      modifies this
      ensures Valid() && View() == OnPresence(old(View()), u)
      ensures u.typing || u.recording ==> OneSource(View(), u.chatJid, u.userJid, now + TYPING_EXPIRY)
      ensures Shown(View(), u.chatJid, u.userJid) <==> (u.typing || u.recording) && (u.userJid != u.chatJid || u.online)
      ensures forall c, v :: c != u.chatJid ==> (Shown(View(), c, v) <==> Shown(old(View()), c, v))
    {
      UpdateEffects(View(), u);
      FoldTyping(u);
      if u.userJid == u.chatJid {
        FoldOnline(u);
      }
    }

    method FoldTyping(u: Update)
      requires TimersMatch(View()) && DueDates(View()) && NoNul(u.chatJid)
      modifies this
      ensures View() == TypingPart(old(View()), u) && u.chatJid in presence
    {
      var chat := if u.chatJid in presence then presence[u.chatJid] else ChatPresence(map[], false, 0);
      if u.typing || u.recording {
        presence := presence[u.chatJid := chat.(typists := chat.typists[u.userJid := DisplayName(u)])];
        Schedule(u.chatJid, u.userJid);
      } else {
        presence := presence[u.chatJid := chat.(typists := chat.typists - {u.userJid})];
      }
    }

    method FoldOnline(u: Update)
      requires u.userJid == u.chatJid && u.chatJid in presence
      modifies `presence
      ensures View() == OnlinePart(old(View()), u)
    {
      var chat := presence[u.chatJid].(online := u.online);
      if u.lastSeen > 0 {
        chat := chat.(lastSeen := u.lastSeen);
      }
      if !chat.online {
        chat := chat.(typists := map[]);
      }
      presence := presence[u.chatJid := chat];
    }

    /** A source comes due: its user is taken down, and nobody else. */
    method TypingExpired(handle: nat)
      requires Valid() && handle in sources && sources[handle].due == now
      modifies `sources, `typingTimers, `presence
      ensures Valid() && View() == Expire(old(View()), handle)
      ensures var src := old(sources[handle]);
              forall c, v :: Shown(View(), c, v) <==> Shown(old(View()), c, v) && (c, v) != (src.chatJid, src.userJid)
    {
      ExpireKeepsInv(View(), handle);
      var src := sources[handle];
      sources := sources - {handle};
      typingTimers := typingTimers - {TimerKey(src.chatJid, src.userJid)};
      if src.chatJid in presence {
        var chat := presence[src.chatJid];
        presence := presence[src.chatJid := chat.(typists := chat.typists - {src.userJid})];
      }
    }
  }
}
