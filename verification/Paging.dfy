/**
 Walking back through a conversation: ListMessages in apps/daemon/store/store.go, and the find
 bar's bounded walk in apps/desktop/find.go.
 */
module Paging {
  import opened Records
  import opened Sequences
  import opened Tables
  import opened Wrappers

  /** WHERE chat_jid = ? AND (? = 0 OR timestamp < ?). */
  predicate Wanted(m: Message, jid: Jid, before: int) {
    m.chatJid == jid && (before == 0 || m.timestamp < before)
  }

  /** What ORDER BY timestamp DESC LIMIT ? may answer; ties may come in any order. */
  ghost predicate IsQuery(rows: seq<Message>, messages: seq<Message>, jid: Jid, limit: nat, before: int) {
    && NoDuplicates(rows)
    && (forall m :: m in rows ==> m in messages && Wanted(m, jid, before))
    && (forall i, j :: 0 <= i < j < |rows| ==> rows[i].timestamp >= rows[j].timestamp)
    && |rows| <= limit
    && forall m :: m in messages && Wanted(m, jid, before) && m !in rows ==>
         |rows| == limit && forall r :: r in rows ==> m.timestamp <= r.timestamp
  }

  ghost predicate Chronological(s: seq<Message>) {
    forall i, j :: 0 <= i < j < |s| ==> s[i].timestamp <= s[j].timestamp
  }

  /** The page as the client gets it: the newest rows before a point, oldest first. */
  method ListMessages(rows: seq<Message>) returns (msgs: seq<Message>)
    ensures msgs == Reversed(rows)
  {
    msgs := rows;
    var i, j := 0, |msgs| - 1;
    while i < j
      invariant 0 <= i && j == |rows| - 1 - i && i <= j + 1 && |msgs| == |rows|
      invariant forall k :: 0 <= k < i || j < k < |rows| ==> msgs[k] == rows[|rows| - 1 - k]
      invariant forall k :: i <= k <= j ==> msgs[k] == rows[k]
    {
      msgs := msgs[i := msgs[j]][j := msgs[i]];
      i, j := i + 1, j - 1;
    }
  }

  /** The same rows oldest first: what the client gets. */
  ghost predicate IsPage(page: seq<Message>, messages: seq<Message>, jid: Jid, limit: nat, before: int) {
    && NoDuplicates(page) && Chronological(page)
    && (forall m :: m in page ==> m in messages && Wanted(m, jid, before))
    && |page| <= limit
    && forall m :: m in messages && Wanted(m, jid, before) && m !in page ==>
         |page| == limit && forall r :: r in page ==> m.timestamp <= r.timestamp
  }

  lemma ReversedQueryIsPage(rows: seq<Message>, messages: seq<Message>, jid: Jid, limit: nat, before: int)
    requires IsQuery(rows, messages, jid, limit, before)
    ensures IsPage(Reversed(rows), messages, jid, limit, before)
  {
    var page := Reversed(rows);
    forall m | m in rows ensures m in page {
      var i :| 0 <= i < |rows| && rows[i] == m;
      assert page[|rows| - 1 - i] == m;
    }
  }

  // ---------------------------------------------------------------- the walk

  /** The daemon answers each request for a page, always alike while the table stands. */
  ghost predicate Answers(pages: int -> seq<Message>, messages: seq<Message>, jid: Jid, limit: nat) {
    limit > 0 && forall before {:trigger IsPage(pages(before), messages, jid, limit, before)} ::
      IsPage(pages(before), messages, jid, limit, before)
  }

  /** The list after opening the chat and walking back k pages. */
  ghost function Loaded(pages: int -> seq<Message>, k: nat): (r: seq<Message>) {
    if k == 0 then pages(0) else NextPage(pages, Loaded(pages, k - 1)) + Loaded(pages, k - 1)
  }

  /** The page that is prepended next: `before` is the oldest timestamp loaded. */
  ghost function NextPage(pages: int -> seq<Message>, loaded: seq<Message>): (r: seq<Message>) {
    if loaded == [] then [] else pages(loaded[0].timestamp)
  }

  /** No step of the walk so far started from an oldest message with timestamp zero. */
  ghost predicate NoZeroBoundary(pages: int -> seq<Message>, k: nat) {
    forall i: nat :: i < k ==> StepSound(Loaded(pages, i))
  }

  ghost predicate StepSound(loaded: seq<Message>) {
    loaded != [] ==> loaded[0].timestamp != 0
  }

  /** The list is chronological, free of repeats, and drawn from the chat. */
  ghost predicate IsHistory(loaded: seq<Message>, messages: seq<Message>, jid: Jid) {
    && Chronological(loaded) && NoDuplicates(loaded)
    && forall m :: m in loaded ==> m in messages && m.chatJid == jid
  }

  /** What the walk has not loaded is older, or shares the oldest timestamp of a full page. */
  ghost predicate SkipsOnly(loaded: seq<Message>, messages: seq<Message>, jid: Jid, boundaries: set<int>) {
    forall m :: m in messages && m.chatJid == jid && m !in loaded ==>
      loaded != [] && (m.timestamp < loaded[0].timestamp || m.timestamp in boundaries)
  }

  /** The oldest timestamps of the full pages among the first k + 1. */
  ghost function Boundaries(pages: int -> seq<Message>, limit: nat, k: nat): (r: set<int>) {
    if k == 0 then Boundary(pages(0), limit)
    else Boundaries(pages, limit, k - 1) + Boundary(NextPage(pages, Loaded(pages, k - 1)), limit)
  }

  ghost function Boundary(page: seq<Message>, limit: nat): (r: set<int>) {
    if page != [] && |page| == limit then {page[0].timestamp} else {}
  }

  /** Prepending an older page keeps the list chronological and free of repeats. */
  lemma PrependKeepsHistory(page: seq<Message>, loaded: seq<Message>, messages: seq<Message>, jid: Jid, limit: nat)
    requires loaded != [] && loaded[0].timestamp != 0 && IsHistory(loaded, messages, jid)
    requires IsPage(page, messages, jid, limit, loaded[0].timestamp)
    ensures IsHistory(page + loaded, messages, jid)
  {
    forall i, j | 0 <= i < |page| && 0 <= j < |loaded| ensures page[i].timestamp < loaded[j].timestamp {
      assert page[i] in page;
      assert loaded[0].timestamp <= loaded[j].timestamp;
    }
  }

  lemma PrependSkipsOnly(page: seq<Message>, loaded: seq<Message>, messages: seq<Message>, jid: Jid, limit: nat,
      boundaries: set<int>)
    requires loaded != [] && loaded[0].timestamp != 0 && limit > 0
    requires SkipsOnly(loaded, messages, jid, boundaries)
    requires IsPage(page, messages, jid, limit, loaded[0].timestamp)
    ensures SkipsOnly(page + loaded, messages, jid, boundaries + Boundary(page, limit))
  {
    forall m | m in messages && m.chatJid == jid && m !in page + loaded
      ensures m.timestamp < (page + loaded)[0].timestamp || m.timestamp in boundaries + Boundary(page, limit)
    {
      if m.timestamp < loaded[0].timestamp {
        assert Wanted(m, jid, loaded[0].timestamp);
        assert page[0] in page;
      }
    }
  }

  lemma FirstPage(page: seq<Message>, messages: seq<Message>, jid: Jid, limit: nat)
    requires IsPage(page, messages, jid, limit, 0) && limit > 0
    ensures IsHistory(page, messages, jid) && SkipsOnly(page, messages, jid, Boundary(page, limit))
  {
    forall m | m in messages && m.chatJid == jid && m !in page
      ensures page != [] && (m.timestamp < page[0].timestamp || m.timestamp in Boundary(page, limit))
    {
      assert Wanted(m, jid, 0);
      assert page[0] in page;
    }
  }

  lemma WalkStep(pages: int -> seq<Message>, messages: seq<Message>, jid: Jid, limit: nat, loaded: seq<Message>,
      boundaries: set<int>)
    requires Answers(pages, messages, jid, limit) && StepSound(loaded)
    requires IsHistory(loaded, messages, jid) && SkipsOnly(loaded, messages, jid, boundaries)
    ensures var page := NextPage(pages, loaded);
            IsHistory(page + loaded, messages, jid) &&
                SkipsOnly(page + loaded, messages, jid, boundaries + Boundary(page, limit))
  {
    var page := NextPage(pages, loaded);
    if loaded == [] {
      assert page + loaded == loaded;
    } else {
      assert IsPage(pages(loaded[0].timestamp), messages, jid, limit, loaded[0].timestamp);
      PrependKeepsHistory(page, loaded, messages, jid, limit);
      PrependSkipsOnly(page, loaded, messages, jid, limit, boundaries);
    }
  }

  /**
   However many pages are walked: the list is chronological and holds no message twice, and a
   message it skipped shares its timestamp with the oldest of a full page.
   */
  lemma {:induction false} WalkIsHistory(pages: int -> seq<Message>, messages: seq<Message>, jid: Jid, limit: nat,
      k: nat)
    requires Answers(pages, messages, jid, limit) && NoZeroBoundary(pages, k)
    ensures IsHistory(Loaded(pages, k), messages, jid)
    ensures SkipsOnly(Loaded(pages, k), messages, jid, Boundaries(pages, limit, k))
  {
    if k == 0 {
      assert IsPage(pages(0), messages, jid, limit, 0);
      FirstPage(pages(0), messages, jid, limit);
    } else {
      var loaded := Loaded(pages, k - 1);
      WalkIsHistory(pages, messages, jid, limit, k - 1);
      assert StepSound(loaded);
      WalkStep(pages, messages, jid, limit, loaded, Boundaries(pages, limit, k - 1));
    }
  }

  /** The next `before` strictly falls with every page that brings something. */
  lemma OldestFalls(pages: int -> seq<Message>, messages: seq<Message>, jid: Jid, limit: nat, loaded: seq<Message>)
    requires Answers(pages, messages, jid, limit) && StepSound(loaded) && NextPage(pages, loaded) != []
    ensures NextPage(pages, loaded)[0].timestamp < loaded[0].timestamp
  {
    assert IsPage(pages(loaded[0].timestamp), messages, jid, limit, loaded[0].timestamp);
    assert NextPage(pages, loaded)[0] in NextPage(pages, loaded);
  }

  /** The walk terminates: fewer pages bring something than the table has messages. */
  lemma WalkEnds(pages: int -> seq<Message>, messages: seq<Message>, jid: Jid, limit: nat, k: nat)
    requires Answers(pages, messages, jid, limit) && NoZeroBoundary(pages, k)
    requires pages(0) != [] && forall i: nat :: i < k ==> NextPage(pages, Loaded(pages, i)) != []
    ensures k < |Loaded(pages, k)| <= |messages|
  {
    WalkIsHistory(pages, messages, jid, limit, k);
    LoadedGrows(pages, k);
    DistinctCount(Loaded(pages, k));
    CountDistinct(messages);
    assert Elements(messages) == Elements(Loaded(pages, k)) + (Elements(messages) - Elements(Loaded(pages, k)));
  }

  lemma {:induction false} LoadedGrows(pages: int -> seq<Message>, k: nat)
    requires pages(0) != [] && forall i: nat :: i < k ==> NextPage(pages, Loaded(pages, i)) != []
    ensures k < |Loaded(pages, k)|
  {
    if k > 0 {
      LoadedGrows(pages, k - 1);
      assert NextPage(pages, Loaded(pages, k - 1)) != [];
    }
  }

  ghost predicate DistinctTimestamps(messages: seq<Message>, jid: Jid) {
    forall m, n :: m in messages && n in messages && m.chatJid == n.chatJid == jid ==>
      m.timestamp != n.timestamp || m == n
  }

  /** Every boundary is the timestamp of a message that was loaded. */
  lemma {:induction false} BoundariesAreLoaded(pages: int -> seq<Message>, limit: nat, k: nat,
      ts: int) returns (m: Message)
    requires ts in Boundaries(pages, limit, k)
    ensures m in Loaded(pages, k) && m.timestamp == ts
  {
    if k == 0 {
      m := pages(0)[0];
    } else if ts in Boundaries(pages, limit, k - 1) {
      m := BoundariesAreLoaded(pages, limit, k - 1, ts);
    } else {
      m := NextPage(pages, Loaded(pages, k - 1))[0];
    }
  }

  /** With distinct timestamps nothing is skipped: what is not loaded is older than all that is. */
  lemma DistinctSkipsNothing(pages: int -> seq<Message>, messages: seq<Message>, jid: Jid, limit: nat, k: nat,
      m: Message)
    requires Answers(pages, messages, jid, limit) && NoZeroBoundary(pages, k) && DistinctTimestamps(messages, jid)
    requires m in messages && m.chatJid == jid && m !in Loaded(pages, k)
    ensures Loaded(pages, k) != [] && forall n :: n in Loaded(pages, k) ==> m.timestamp < n.timestamp
  {
    WalkIsHistory(pages, messages, jid, limit, k);
    if m.timestamp in Boundaries(pages, limit, k) {
      var n := BoundariesAreLoaded(pages, limit, k, m.timestamp);
      assert false;
    }
  }

  /** When the walk meets an empty page, it has returned exactly the chat's whole history. */
  lemma WholeHistory(pages: int -> seq<Message>, messages: seq<Message>, jid: Jid, limit: nat, k: nat, m: Message)
    requires Answers(pages, messages, jid, limit) && NoZeroBoundary(pages, k + 1) && DistinctTimestamps(messages, jid)
    requires NextPage(pages, Loaded(pages, k)) == []
    ensures m in Loaded(pages, k) <==> m in messages && m.chatJid == jid
  {
    var loaded := Loaded(pages, k);
    WalkIsHistory(pages, messages, jid, limit, k);
    if m in messages && m.chatJid == jid && m !in loaded {
      DistinctSkipsNothing(pages, messages, jid, limit, k, m);
      assert StepSound(loaded);
      assert IsPage(pages(loaded[0].timestamp), messages, jid, limit, loaded[0].timestamp);
      assert Wanted(m, jid, loaded[0].timestamp);
    }
  }

  /** The rows of n full pages: n times the limit. */
  ghost function FullPages(limit: nat, n: nat): (r: nat) {
    if n == 0 then 0 else FullPages(limit, n - 1) + limit
  }

  /**
   After k more pages the list holds k + 1 full pages, or all there is; what is missing is
   older than all of it (DistinctSkipsNothing). So a walk reaches exactly that far.
   */
  lemma {:induction false} WalkReach(pages: int -> seq<Message>, messages: seq<Message>, jid: Jid, limit: nat,
      k: nat, m: Message)
    requires Answers(pages, messages, jid, limit) && NoZeroBoundary(pages, k) && DistinctTimestamps(messages, jid)
    requires m in messages && m.chatJid == jid && m !in Loaded(pages, k)
    ensures |Loaded(pages, k)| == FullPages(limit, k + 1)
  {
    if k == 0 {
      assert IsPage(pages(0), messages, jid, limit, 0);
      assert Wanted(m, jid, 0);
    } else {
      var loaded := Loaded(pages, k - 1);
      WalkReach(pages, messages, jid, limit, k - 1, m);
      DistinctSkipsNothing(pages, messages, jid, limit, k - 1, m);
      assert IsPage(pages(loaded[0].timestamp), messages, jid, limit, loaded[0].timestamp);
      assert Wanted(m, jid, loaded[0].timestamp);
    }
  }

  /**
   The next page repeats messages already loaded exactly when the oldest loaded timestamp is
   zero: then `before` is zero, which asks for the newest page again. loadOlderMessages checks
   for that; scrollToMessage does not.
   */
  lemma PageRepeatsIff(pages: int -> seq<Message>, messages: seq<Message>, jid: Jid, limit: nat, k: nat)
    requires Answers(pages, messages, jid, limit) && NoZeroBoundary(pages, k) && Loaded(pages, k) != []
    ensures (exists m :: m in NextPage(pages, Loaded(pages, k)) && m in Loaded(pages, k)) <==>
            Loaded(pages, k)[0].timestamp == 0
  {
    WalkIsHistory(pages, messages, jid, limit, k);
    var loaded := Loaded(pages, k);
    var oldest := loaded[0].timestamp;
    assert IsPage(pages(oldest), messages, jid, limit, oldest);
    if oldest == 0 {
      assert loaded[0] in loaded && Wanted(loaded[0], jid, 0);
      assert pages(0) != [];
      StaysLoaded(pages, 0, k, pages(0)[0]);
    } else {
      forall m | m in pages(oldest) ensures m !in loaded {}
    }
  }

  function TextMessage(id: string, jid: Jid, timestamp: int): (r: Message) {
    Message(Id(id), jid, "", "", "", "text", timestamp, false, StatusRead, false, "", None)
  }

  /** Such a walk: two messages, the older one stamped zero, in pages of one. */
  lemma ZeroTimestampRepeats() returns (pages: int -> seq<Message>, messages: seq<Message>, jid: Jid)
    ensures Answers(pages, messages, jid, 1) && NoZeroBoundary(pages, 1) && |Loaded(pages, 1)| == 2
    ensures exists m :: m in NextPage(pages, Loaded(pages, 1)) && m in Loaded(pages, 1)
  {
    jid := Jid("49", 0, DefaultUserServer);
    var older, newer := TextMessage("1", jid, 0), TextMessage("2", jid, 5);
    messages := [older, newer];
    pages := before => if before == 0 || before > 5 then [newer] else if before > 0 then [older] else [];
    forall before ensures IsPage(pages(before), messages, jid, 1, before) {
      assert messages[0] in messages && messages[1] in messages;
    }
    assert Loaded(pages, 0) == [newer];
    assert Loaded(pages, 1) == [older, newer];
    PageRepeatsIff(pages, messages, jid, 1, 1);
  }

  lemma {:induction false} StaysLoaded(pages: int -> seq<Message>, i: nat, k: nat, m: Message)
    requires i <= k && m in Loaded(pages, i)
    ensures m in Loaded(pages, k)
  {
    if i < k {
      StaysLoaded(pages, i, k - 1, m);
    }
  }

  // ---------------------------------------------------------------- the find bar

  const FIND_PAGE_LIMIT: nat := 10

  /** What a page request brings back; sameChat says whether that chat is still the open one. */
  datatype Reply = Reply(failed: bool, sameChat: bool, msgs: seq<Message>)

  /** Scrolled to a row, gave up with a toast, or was stopped by a reply. */
  datatype Outcome = Found(row: nat) | TooFarBack | Stopped

  datatype Scrolled = Scrolled(messages: seq<Message>, fetches: nat, outcome: Outcome)

  predicate Usable(reply: Reply) {
    !reply.failed && reply.sameChat && reply.msgs != []
  }

  function IndexOf(s: seq<Message>, id: Id): (r: Option<nat>) {
    if s == [] then None
    else if s[0].id == id then Some(0)
    else
      match IndexOf(s[1..], id)
      case None => None
      case Some(i) => Some(i + 1)
  }

  /** The walk of scrollToMessage; the server answers request n for rows before a timestamp. */
  function Scroll(messages: seq<Message>, id: Id, budget: nat, connected: bool, server: (nat, int) -> Reply,
      n: nat): (r: Scrolled)
    decreases budget
  {
    match IndexOf(messages, id)
    case Some(row) => Scrolled(messages, n, Found(row))
    case None =>
      if budget == 0 || !connected || messages == [] then Scrolled(messages, n, TooFarBack)
      else
        var reply := server(n, messages[0].timestamp);
        if Usable(reply) then Scroll(reply.msgs + messages, id, budget - 1, connected, server, n + 1)
        else Scrolled(messages, n + 1, Stopped)
  }

  lemma {:induction false} IndexOfFinds(s: seq<Message>, id: Id)
    ensures IndexOf(s, id).None? <==> forall m :: m in s ==> m.id != id
    ensures IndexOf(s, id).Some? ==> IndexOf(s, id).value < |s| && s[IndexOf(s, id).value].id == id
  {
    if s != [] {
      IndexOfFinds(s[1..], id);
      assert s == [s[0]] + s[1..];
    }
  }

  /** The walk sends at most its budget of requests, and only adds rows in front. */
  lemma {:induction false} ScrollIsBounded(messages: seq<Message>, id: Id, budget: nat, connected: bool,
      server: (nat, int) -> Reply, n: nat)
    ensures var r := Scroll(messages, id, budget, connected, server, n);
            && n <= r.fetches <= n + budget
            && |messages| <= |r.messages| && r.messages[|r.messages| - |messages|..] == messages
            && (r.outcome.Found? <==> exists m :: m in r.messages && m.id == id)
            && (r.outcome.Found? ==> r.outcome.row < |r.messages| && r.messages[r.outcome.row].id == id)
    decreases budget
  {
    IndexOfFinds(messages, id);
    if IndexOf(messages, id).None? && budget > 0 && connected && messages != [] {
      var reply := server(n, messages[0].timestamp);
      if Usable(reply) {
        ScrollIsBounded(reply.msgs + messages, id, budget - 1, connected, server, n + 1);
        var r := Scroll(messages, id, budget, connected, server, n);
        var longer := r.messages[|r.messages| - |reply.msgs + messages|..];
        assert r.messages[|r.messages| - |messages|..] == longer[|reply.msgs|..];
      }
    }
  }

  /** When the walk ends without a request: the row is loaded, or nothing can be asked for. */
  lemma ScrollEndsAtOnce(
      messages: seq<Message>, id: Id, budget: nat, connected: bool, server: (nat, int) -> Reply, n: nat)
    requires (exists m :: m in messages && m.id == id) || budget == 0 || !connected || messages == []
    ensures var r := Scroll(messages, id, budget, connected, server, n);
            r.messages == messages && r.fetches == n && (r.outcome.Found? || r.outcome == TooFarBack)
  {
    IndexOfFinds(messages, id);
  }

  /**
   Otherwise it asks for the rows before the oldest. A failed reply, one for a chat that is no
   longer open, and an empty one end the walk with the list as it was; any other goes in front.
   */
  lemma ScrollAsks(messages: seq<Message>, id: Id, budget: nat, server: (nat, int) -> Reply, n: nat)
    requires messages != [] && budget > 0 && forall m :: m in messages ==> m.id != id
    ensures var reply, r := server(n, messages[0].timestamp), Scroll(messages, id, budget, true, server, n);
            if reply.failed || !reply.sameChat || reply.msgs == []
            then r == Scrolled(messages, n + 1, Stopped)
            else r == Scroll(reply.msgs + messages, id, budget - 1, true, server, n + 1)
  {
    IndexOfFinds(messages, id);
  }

  /** Every request is answered with the right page of the same table. */
  ghost predicate Serves(server: (nat, int) -> Reply, pages: int -> seq<Message>) {
    forall n: nat, before :: server(n, before) == Reply(false, true, pages(before))
  }

  lemma {:induction false} StuckAfterEmptyPage(pages: int -> seq<Message>, k: nat, n: nat)
    requires NextPage(pages, Loaded(pages, k)) == []
    ensures Loaded(pages, k + n) == Loaded(pages, k)
  {
    if n > 0 {
      StuckAfterEmptyPage(pages, k, n - 1);
    }
  }

  /**
   With a server that answers, the walk finds a message exactly when it lies within `budget`
   more pages of the walk above, however far back that is.
   */
  lemma {:induction false} ScrollFindsWithinBudget(pages: int -> seq<Message>, k: nat, id: Id, budget: nat,
      server: (nat, int) -> Reply, n: nat)
    requires Serves(server, pages)
    ensures Scroll(Loaded(pages, k), id, budget, true, server, n).outcome.Found?
       <==> exists m :: m in Loaded(pages, k + budget) && m.id == id
    decreases budget
  {
    var loaded := Loaded(pages, k);
    IndexOfFinds(loaded, id);
    if IndexOf(loaded, id).Some? {
      StaysLoaded(pages, k, k + budget, loaded[IndexOf(loaded, id).value]);
    } else if budget == 0 || NextPage(pages, loaded) == [] {
      ScrollGivesUp(loaded, id, budget, server, n);
      if budget > 0 {
        StuckAfterEmptyPage(pages, k, budget);
      }
    } else {
      ScrollStep(loaded, id, budget, server, n, NextPage(pages, loaded));
      ScrollFindsWithinBudget(pages, k + 1, id, budget - 1, server, n + 1);
    }
  }

  /** Out of budget, with nothing loaded, or at an empty page, the walk ends without the message. */
  lemma ScrollGivesUp(loaded: seq<Message>, id: Id, budget: nat, server: (nat, int) -> Reply, n: nat)
    requires IndexOf(loaded, id).None?
    requires budget == 0 || loaded == [] || server(n, loaded[0].timestamp).msgs == []
    ensures !Scroll(loaded, id, budget, true, server, n).outcome.Found?
  {
  }

  lemma ScrollStep(loaded: seq<Message>, id: Id, budget: nat, server: (nat, int) -> Reply, n: nat, page: seq<Message>)
    requires IndexOf(loaded, id).None? && budget > 0 && loaded != [] && page != []
    requires server(n, loaded[0].timestamp) == Reply(false, true, page)
    ensures Scroll(loaded, id, budget, true, server, n) == Scroll(page + loaded, id, budget - 1, true, server, n + 1)
  {
  }

  class Conversation {
    var messages: seq<Message>
    var hasOlder: bool
    var stickToBottom: bool
    /** Page requests sent so far. */
    var fetches: nat

    constructor (initial: seq<Message>)
      ensures messages == initial && hasOlder && stickToBottom && fetches == 0
    {
      messages, hasOlder, stickToBottom, fetches := initial, true, true, 0;
    }

    /** Scans the loaded rows for a message. */
    method Lookup(id: Id) returns (row: Option<nat>)
      ensures row == IndexOf(messages, id)
    {
      var i := 0;
      while i < |messages|
        invariant 0 <= i <= |messages|
        invariant IndexOf(messages, id) ==
                    match IndexOf(messages[i..], id) { case None => None case Some(j) => Some(j + i) }
      {
        if messages[i].id == id {
          return Some(i);
        }
        assert messages[i..][1..] == messages[i + 1..];
        i := i + 1;
      }
      return None;
    }

    /** Looks for a row and calls itself again with one more page in front, as the reply handler does. */
    method ScrollToMessage(id: Id, budget: nat, connected: bool, server: (nat, int) -> Reply) returns (outcome: Outcome)
      modifies this
      ensures Scrolled(messages, fetches, outcome) == Scroll(old(messages), id, budget, connected, server, old(fetches))
      ensures stickToBottom == (old(stickToBottom) && !outcome.Found?)
      decreases budget
    {
      var row := Lookup(id);
      if row.Some? {
        stickToBottom := false;
        return Found(row.value);
      }
      if budget == 0 || !connected || |messages| == 0 {
        return TooFarBack;
      }
      var reply := server(fetches, messages[0].timestamp);
      fetches := fetches + 1;
      if reply.failed || !reply.sameChat || |reply.msgs| == 0 {
        if |reply.msgs| == 0 {
          hasOlder := false;
        }
        return Stopped;
      }
      messages := reply.msgs + messages;
      outcome := ScrollToMessage(id, budget - 1, connected, server);
    }
  }
}
