/**
 The desktop's chat list (apps/desktop/window.go): an index and an ordered list of shared chat
 objects, updated in place by events, then sorted, filtered and spliced into the list model.
 */
module Sidebar {
  import opened Records
  import opened Sequences
  import opened StableSort
  import Splice

  datatype Filter = FilterDirect | FilterGroups | FilterArchived

  /** One tab holds what is archived; the other two share the rest between them. */
  predicate FilterMatches(filter: Filter, chat: ProtoChat) {
    if filter == FilterArchived then chat.archived
    else if chat.archived then false
    else chat.isGroup == (filter == FilterGroups)
  }

  /** A chat the list model points at. Its identity is what keeps its row on screen. */
  class ChatItem {
    const jid: Jid
    var name: string
    var unread: int
    var archived: bool
    var pinned: bool
    var lastMessage: string
    var updatedAt: int
    var isGroup: bool
    var mutedUntil: int

    constructor (row: ProtoChat)
      ensures Row() == row && jid == row.jid && name == row.name && unread == row.unread
      ensures archived == row.archived && pinned == row.pinned && lastMessage == row.lastMessage
      ensures updatedAt == row.updatedAt && isGroup == row.isGroup && mutedUntil == row.mutedUntil
    {
      jid, name, unread, archived := row.jid, row.name, row.unread, row.archived;
      pinned, lastMessage, updatedAt := row.pinned, row.lastMessage, row.updatedAt;
      isGroup, mutedUntil := row.isGroup, row.mutedUntil;
    }

    function Row(): (r: ProtoChat)
      reads this
    {
      ProtoChat(jid, name, unread, archived, pinned, lastMessage, updatedAt, isGroup, mutedUntil)
    }

    function Key(): (r: SortKey)
      reads this
    {
      SortKey(pinned, updatedAt)
    }

    /** Takes over every field of src but the JID, keeping this object. */
    method CopyChatFrom(src: ChatItem)
      modifies this
      ensures Row() == old(src.Row()).(jid := jid)
    {
      name := src.name;
      unread := src.unread;
      archived := src.archived;
      pinned := src.pinned;
      lastMessage := src.lastMessage;
      updatedAt := src.updatedAt;
      isGroup := src.isGroup;
      mutedUntil := src.mutedUntil;
    }
  }

  ghost function Entries(s: seq<ChatItem>): (r: seq<Entry<ChatItem>>)
    reads s
    ensures |r| == |s|
    ensures forall i :: 0 <= i < |s| ==> r[i] == Entry(s[i], s[i].Key())
  {
    if s == [] then [] else Entries(s[..|s| - 1]) + [Entry(s[|s| - 1], s[|s| - 1].Key())]
  }

  ghost function Visible(s: seq<ChatItem>, filter: Filter): (r: seq<ChatItem>)
    reads s
  {
    if s == [] then []
    else
      var last := s[|s| - 1];
      Visible(s[..|s| - 1], filter) + if FilterMatches(filter, last.Row()) then [last] else []
  }

  ghost function Count(s: seq<ChatItem>, c: ChatItem): (r: nat) {
    if s == [] then 0 else Count(s[..|s| - 1], c) + if s[|s| - 1] == c then 1 else 0
  }

  /** The three tabs together show every chat exactly as often as the list holds it: once. */
  lemma {:induction false} TabsPartition(s: seq<ChatItem>, c: ChatItem)
    ensures Count(s, c)
         == Count(Visible(s, FilterDirect), c) + Count(Visible(s, FilterGroups), c)
            + Count(Visible(s, FilterArchived), c)
  {
    if s != [] {
      TabsPartition(s[..|s| - 1], c);
      VisibleStep(s, FilterDirect, c);
      VisibleStep(s, FilterGroups, c);
      VisibleStep(s, FilterArchived, c);
    }
  }

  lemma VisibleStep(s: seq<ChatItem>, filter: Filter, c: ChatItem)
    requires s != []
    ensures Count(Visible(s, filter), c) == Count(Visible(s[..|s| - 1], filter), c)
          + if s[|s| - 1] == c && FilterMatches(filter, c.Row()) then 1 else 0
  {
    var shown, last := Visible(s[..|s| - 1], filter), s[|s| - 1];
    assert (shown + [last])[..|shown|] == shown;
    assert shown + [] == shown;
  }

  /** Pinned chats come first, and within each part the ones with the newest activity. */
  ghost predicate ListedInOrder(s: seq<ChatItem>)
    reads s
  {
    forall i, j :: 0 <= i < j < |s| ==>
      && (s[j].pinned ==> s[i].pinned)
      && (s[i].pinned == s[j].pinned ==> s[i].updatedAt >= s[j].updatedAt)
  }

  lemma OrderedIsListed(s: seq<ChatItem>)
    requires Ordered(Entries(s))
    ensures ListedInOrder(s)
  {
    forall i, j | 0 <= i < j < |s|
      ensures s[j].pinned ==> s[i].pinned
      ensures s[i].pinned == s[j].pinned ==> s[i].updatedAt >= s[j].updatedAt
    {
      assert !Before(Entries(s)[j].key, Entries(s)[i].key);
    }
  }

  ghost predicate OnTab(c: ChatItem, filter: Filter)
    reads c
  {
    match filter
    case FilterDirect => !c.archived && !c.isGroup
    case FilterGroups => !c.archived && c.isGroup
    case FilterArchived => c.archived
  }

  /** What each tab shows: groups, direct chats, and whatever is archived; in the order of the list. */
  lemma {:induction false} TabShows(s: seq<ChatItem>, filter: Filter)
    ensures forall c :: c in Visible(s, filter) ==> c in s
    ensures forall c :: c in s ==> (c in Visible(s, filter) <==> OnTab(c, filter))
    ensures ListedInOrder(s) ==> ListedInOrder(Visible(s, filter))
  {
    if s != [] {
      var before, last := s[..|s| - 1], s[|s| - 1];
      InitAndLast(s);
      TabShows(before, filter);
      if ListedInOrder(s) {
        var shown := Visible(before, filter);
        assert ListedInOrder(before);
        VisibleInOrder(shown, before, last);
      }
    }
  }

  lemma VisibleInOrder(shown: seq<ChatItem>, before: seq<ChatItem>, last: ChatItem)
    requires ListedInOrder(before + [last]) && ListedInOrder(shown) && forall c :: c in shown ==> c in before
    ensures ListedInOrder(shown + [last])
  {
    forall i | 0 <= i < |shown|
      ensures last.pinned ==> shown[i].pinned
      ensures shown[i].pinned == last.pinned ==> shown[i].updatedAt >= last.updatedAt
    {
      assert shown[i] in before;
      var k :| 0 <= k < |before| && before[k] == shown[i];
      assert (before + [last])[k] == shown[i] && (before + [last])[|before|] == last;
    }
  }

  /** No object occurs twice; stated along the list, so that appending unfolds it once. */
  ghost predicate Distinct(s: seq<ChatItem>) {
    s == [] || (s[|s| - 1] !in s[..|s| - 1] && Distinct(s[..|s| - 1]))
  }

  lemma {:induction false} DistinctIsNoDuplicates(s: seq<ChatItem>)
    ensures Distinct(s) <==> NoDuplicates(s)
  {
    if s != [] {
      DistinctIsNoDuplicates(s[..|s| - 1]);
    }
  }

  lemma {:induction false} CountOnce(s: seq<ChatItem>, c: ChatItem)
    requires Distinct(s)
    ensures Count(s, c) == if c in s then 1 else 0
  {
    if s != [] {
      CountOnce(s[..|s| - 1], c);
    }
  }

  /** What showing search results does to the known rows: each result overwrites its chat. */
  function SearchMerge(rows: map<Jid, ProtoChat>, results: seq<ProtoChat>): (r: map<Jid, ProtoChat>) {
    if results == [] then rows
    else
      Overwritten(SearchMerge(rows, results[..|results| - 1]), results[|results| - 1])
  }

  function Overwritten(rows: map<Jid, ProtoChat>, r: ProtoChat): (result: map<Jid, ProtoChat>) {
    if r.jid in rows then rows[r.jid := r] else rows
  }

  lemma {:induction false} SearchMergeKeys(rows: map<Jid, ProtoChat>, results: seq<ProtoChat>)
    ensures SearchMerge(rows, results).Keys == rows.Keys
  {
    if results != [] {
      SearchMergeKeys(rows, results[..|results| - 1]);
    }
  }

  lemma SearchMergeStep(rows: map<Jid, ProtoChat>, results: seq<ProtoChat>, n: nat)
    requires n < |results|
    ensures SearchMerge(rows, results[..n + 1]) == Overwritten(SearchMerge(rows, results[..n]), results[n])
  {
    assert results[..n + 1][..n] == results[..n];
  }

  ghost predicate DistinctJids(results: seq<ProtoChat>) {
    forall i, j :: 0 <= i < j < |results| ==> results[i].jid != results[j].jid
  }

  lemma {:induction false} SearchMergeRow(rows: map<Jid, ProtoChat>, results: seq<ProtoChat>, j: Jid)
    requires DistinctJids(results) && j in rows
    ensures j in SearchMerge(rows, results)
    ensures forall r :: r in results && r.jid == j ==> SearchMerge(rows, results)[j] == r
    ensures (forall r :: r in results ==> r.jid != j) ==> SearchMerge(rows, results)[j] == rows[j]
  {
    SearchMergeKeys(rows, results);
    if results != [] {
      var before, last := results[..|results| - 1], results[|results| - 1];
      assert results == before + [last];
      SearchMergeKeys(rows, before);
      SearchMergeRow(rows, before, j);
      forall r | r in before ensures r.jid != last.jid {
        var i :| 0 <= i < |before| && before[i] == r;
        assert results[i] == r;
      }
    }
  }

  /**
   The rows survive a rebuild during a search exactly when no search result is out of date.
   Results are a snapshot taken when the search was answered, so a chat that changed since
   then is put back to what it was.
   */
  lemma SearchRebuildKeepsRowsIff(rows: map<Jid, ProtoChat>, results: seq<ProtoChat>)
    requires DistinctJids(results)
    ensures SearchMerge(rows, results) == rows <==> forall r :: r in results && r.jid in rows ==> rows[r.jid] == r
  {
    if forall r :: r in results && r.jid in rows ==> rows[r.jid] == r {
      SearchMergeKeys(rows, results);
      forall j | j in rows ensures j in SearchMerge(rows, results) && SearchMerge(rows, results)[j] == rows[j] {
        SearchMergeRow(rows, results, j);
        if r :| r in results && r.jid == j {
          assert SearchMerge(rows, results)[j] == r;
        }
      }
    } else {
      var r :| r in results && r.jid in rows && rows[r.jid] != r;
      SearchMergeRow(rows, results, r.jid);
    }
  }

  class Window {
    var chatIndex: map<Jid, ChatItem>
    var chatOrder: seq<ChatItem>
    /** The list model, as GTK holds it. */
    var chats: seq<ChatItem>
    var chatRebuildQueued: bool
    var searchQuery: string
    var searchResults: seq<ChatItem>
    var filter: Filter

    /**
     The list holds exactly the objects of the index, once each, keyed by their own JID;
     search results are objects of their own.
     */
    ghost predicate Valid()
      reads `chatIndex, `chatOrder, `searchResults
    {
      && Distinct(chatOrder)
      && (forall j :: j in chatIndex ==> chatIndex[j].jid == j && chatIndex[j] in chatOrder)
      && (forall c :: c in chatOrder ==> c.jid in chatIndex && chatIndex[c.jid] == c)
      && (forall c :: c in searchResults ==> c !in chatOrder)
    }

    /** Across every run, the list holds each object of the index once and nothing else. */
    lemma OnceEach(c: ChatItem)
      requires Valid()
      ensures Count(chatOrder, c) == if c.jid in chatIndex && chatIndex[c.jid] == c then 1 else 0
    {
      CountOnce(chatOrder, c);
    }

    /** Outside a search, the model shows the sorted, filtered list or a rebuild is due. */
    ghost predicate Fresh()
      reads this, chatOrder
    {
      chatRebuildQueued || searchQuery != "" || UpToDate()
    }

    ghost predicate UpToDate()
      reads this, chatOrder
    {
      ListedInOrder(chatOrder) && chats == Visible(chatOrder, filter)
    }

    /** What the user sees then: the chats of the tab, pinned first, then by newest activity. */
    lemma ModelInOrder()
      requires UpToDate()
      ensures ListedInOrder(chats)
      ensures forall c :: c in chats <==> c in chatOrder && OnTab(c, filter)
    {
      TabShows(chatOrder, filter);
    }

    ghost function Rows(): (r: map<Jid, ProtoChat>)
      reads `chatIndex, chatIndex.Values
    {
      map j | j in chatIndex :: chatIndex[j].Row()
    }

    constructor ()
      ensures Valid() && Fresh() && Rows() == map[] && filter == FilterDirect
    {
      chatIndex, chatOrder, chats, chatRebuildQueued := map[], [], [], false;
      searchQuery, searchResults, filter := "", [], FilterDirect;
    }

    /** Merges a chat that just arrived; a known chat keeps its object. */
    method UpsertChat(chat: ChatItem)
      requires Valid() && chat !in searchResults
      modifies `chatIndex, `chatOrder, `chatRebuildQueued
      modifies if chat.jid in chatIndex then {chatIndex[chat.jid]} else {}
      ensures Valid() && Fresh()
      ensures Rows() == old(Rows())[chat.jid := old(chat.Row())]
      ensures chatIndex == if chat.jid in old(chatIndex) then old(chatIndex) else old(chatIndex)[chat.jid := chat]
    {
      if chat.jid in chatIndex {
        var existing := chatIndex[chat.jid];
        UpdateKnown(existing, chat);
      } else {
        AppendNew(chat);
      }
      ScheduleChatRebuild();
    }

    method UpdateKnown(existing: ChatItem, chat: ChatItem)
      requires Valid() && chat.jid in chatIndex && existing == chatIndex[chat.jid]
      modifies existing
      ensures Rows() == old(Rows())[chat.jid := old(chat.Row())]
    {
      existing.CopyChatFrom(chat);
    }

    method AppendNew(chat: ChatItem)
      requires Valid() && chat.jid !in chatIndex && chat !in searchResults
      modifies `chatIndex, `chatOrder
      ensures Valid()
      ensures chatIndex == old(chatIndex)[chat.jid := chat]
      ensures Rows() == old(Rows())[chat.jid := chat.Row()]
    {
      assert (chatOrder + [chat])[..|chatOrder|] == chatOrder;
      chatOrder := chatOrder + [chat];
      chatIndex := chatIndex[chat.jid := chat];
    }

    method ScheduleChatRebuild()
      modifies `chatRebuildQueued
      ensures chatRebuildQueued
    {
      chatRebuildQueued := true;
    }

    /** Drops a chat the daemon no longer has. */
    method RemoveChat(jid: Jid)
      requires Valid() && Fresh()
      modifies `chatIndex, `chatOrder, `chatRebuildQueued
      ensures Valid() && Fresh()
      ensures Rows() == old(Rows()) - {jid}
      ensures chatIndex == old(chatIndex) - {jid}
    {
      if jid !in chatIndex {
        return;
      }
      var existing := chatIndex[jid];
      chatIndex := chatIndex - {jid};
      chatOrder := WithoutItem(chatOrder, existing);
      ScheduleChatRebuild();
    }

    /** Turns the list model into the wanted list by replacing one stretch of it. */
    method ApplyChatModel(visible: seq<ChatItem>)
      modifies `chats
      ensures chats == visible
    {
      var head, removals, changed := Splice.SpliceRange(chats, visible);
      if !changed {
        return;
      }
      chats := chats[..head] + visible[head..|visible| - (|chats| - head - removals)] + chats[head + removals..];
    }

    method RebuildChatModel()
      requires Valid()
      modifies `chatOrder, `chats, chatOrder
      ensures Valid()
      ensures searchQuery == "" ==>
                && Rows() == old(Rows())
                && StableSortOf(old(Entries(chatOrder)), Entries(chatOrder))
                && UpToDate() && ListedInOrder(chats)
      ensures searchQuery != "" ==>
                && Rows() == SearchMerge(old(Rows()), old(RowsOf(searchResults)))
                && chatOrder == old(chatOrder)
                && chats == ShownList(searchResults)
    {
      if searchQuery != "" {
        ShowSearch();
      } else {
        SortAndFilter();
      }
    }

    method ShowSearch()
      requires Valid()
      modifies `chats, chatOrder
      ensures Rows() == SearchMerge(old(Rows()), old(RowsOf(searchResults)))
      ensures chats == ShownList(searchResults)
    {
      var results := ShowResults();
      ApplyChatModel(results);
    }

    method SortOrder()
      requires Valid()
      modifies `chatOrder
      ensures Valid()
      ensures StableSortOf(old(Entries(chatOrder)), Entries(chatOrder))
      ensures ListedInOrder(chatOrder)
    {
      chatOrder := SortChats(chatOrder);
    }

    method ShowTab()
      requires ListedInOrder(chatOrder)
      modifies `chats
      ensures UpToDate() && ListedInOrder(chats)
    {
      var visible := VisibleChats(chatOrder, filter);
      ApplyChatModel(visible);
      ModelInOrder();
    }

    method SortAndFilter()
      requires Valid()
      modifies `chatOrder, `chats
      ensures Valid()
      ensures StableSortOf(old(Entries(chatOrder)), Entries(chatOrder))
      ensures UpToDate() && ListedInOrder(chats)
    {
      SortOrder();
      ShowTab();
    }

    ghost function ShownAs(c: ChatItem): (r: ChatItem)
      reads `chatIndex
    {
      if c.jid in chatIndex then chatIndex[c.jid] else c
    }

    /** Search results as the list shows them: known chats by the objects it already holds. */
    ghost function ShownList(results: seq<ChatItem>): (r: seq<ChatItem>)
      reads `chatIndex
    {
      if results == [] then [] else ShownList(results[..|results| - 1]) + [ShownAs(results[|results| - 1])]
    }

    method ShowResults() returns (results: seq<ChatItem>)
      requires Valid()
      modifies chatOrder
      ensures Rows() == SearchMerge(old(Rows()), old(RowsOf(searchResults)))
      ensures results == ShownList(searchResults)
    {
      results := [];
      ghost var given, before := RowsOf(searchResults), Rows();
      var n := 0;
      while n < |searchResults|
        invariant 0 <= n <= |searchResults|
        invariant results == ShownList(searchResults[..n])
        invariant SameRows(searchResults, given)
        invariant Rows() == SearchMerge(before, given[..n])
      {
        var c := ShowResult(n, given, before);
        ShownListStep(searchResults, n);
        results := results + [c];
        n := n + 1;
      }
      assert given[..n] == given && searchResults[..n] == searchResults;
    }

    lemma ShownListStep(results: seq<ChatItem>, n: nat)
      requires n < |results|
      ensures ShownList(results[..n + 1]) == ShownList(results[..n]) + [ShownAs(results[n])]
    {
      assert results[..n + 1][..n] == results[..n];
    }

    /** A known chat takes the result's fields and stands in for it. */
    method ShowResult(n: nat, ghost given: seq<ProtoChat>, ghost before: map<Jid, ProtoChat>) returns (c: ChatItem)
      requires Valid() && n < |searchResults| && SameRows(searchResults, given)
      requires Rows() == SearchMerge(before, given[..n])
      modifies if searchResults[n].jid in chatIndex then {chatIndex[searchResults[n].jid]} else {}
      ensures c == ShownAs(searchResults[n])
      ensures Rows() == SearchMerge(before, given[..n + 1])
      ensures SameRows(searchResults, given)
    {
      SearchMergeStep(before, given, n);
      c := searchResults[n];
      if c.jid in chatIndex {
        var existing := chatIndex[c.jid];
        existing.CopyChatFrom(c);
        c := existing;
      }
    }

    /** The coalescing timer fires. */
    method RebuildTimer()
      requires Valid()
      modifies `chatOrder, `chats, `chatRebuildQueued, chatOrder
      ensures Valid() && Fresh() && !chatRebuildQueued
      ensures searchQuery == "" ==> UpToDate() && ListedInOrder(chats)
    {
      chatRebuildQueued := false;
      RebuildChatModel();
    }

    method SetFilter(f: Filter)
      requires Valid()
      modifies `chatOrder, `chats, `filter, chatOrder
      ensures Valid() && filter == f
      ensures searchQuery == "" ==> UpToDate() && ListedInOrder(chats) && Rows() == old(Rows())
    {
      filter := f;
      assert Rows() == old(Rows());
      RebuildChatModel();
    }

    /** The search entry changed; the daemon's answer comes later through SearchAnswered. */
    method SetSearchQuery(query: string)
      requires Valid() && Fresh()
      modifies `chatOrder, `chats, `searchQuery, `searchResults, chatOrder
      ensures Valid() && Fresh() && searchQuery == query
      ensures Rows() == old(Rows())
      ensures query == "" ==> UpToDate() && ListedInOrder(chats)
    {
      searchQuery := query;
      if query == "" {
        searchResults := [];
        assert Rows() == old(Rows());
        RebuildChatModel();
      }
    }

    /** An answer to an older query must not win. */
    method SearchAnswered(query: string, results: seq<ChatItem>)
      requires Valid() && Fresh()
      requires forall c :: c in results ==> c !in chatOrder
      modifies `chatOrder, `chats, `searchResults, chatOrder
      ensures Valid() && Fresh()
      ensures query != searchQuery ==> chats == old(chats) && Rows() == old(Rows())
      ensures query == searchQuery != "" ==> Rows() == SearchMerge(old(Rows()), old(RowsOf(results)))
    {
      if query != searchQuery {
        return;
      }
      ghost var given := RowsOf(results);
      searchResults := results;
      assert RowsOf(searchResults) == given && Rows() == old(Rows());
      RebuildChatModel();
    }
  }

  /** The loop of removeChat: drops the one occurrence of an object. */
  method WithoutItem(s: seq<ChatItem>, x: ChatItem) returns (r: seq<ChatItem>)
    requires Distinct(s) && x in s
    ensures Distinct(r)
    ensures forall c :: c in r <==> c in s && c != x
  {
    var i := 0;
    while i < |s| && s[i] != x
      invariant 0 <= i <= |s|
      invariant forall k :: 0 <= k < i ==> s[k] != x
    {
      i := i + 1;
    }
    r := s[..i] + s[i + 1..];
    DistinctIsNoDuplicates(s);
    DistinctIsNoDuplicates(r);
  }

  ghost function RowsOf(s: seq<ChatItem>): (r: seq<ProtoChat>)
    reads s
    ensures |r| == |s|
    ensures forall i :: 0 <= i < |s| ==> r[i] == s[i].Row()
  {
    if s == [] then [] else RowsOf(s[..|s| - 1]) + [s[|s| - 1].Row()]
  }

  ghost predicate SameRows(s: seq<ChatItem>, rows: seq<ProtoChat>)
    reads s
  {
    |rows| == |s| && forall i :: 0 <= i < |s| ==> s[i].Row() == rows[i]
  }

  method VisibleChats(s: seq<ChatItem>, filter: Filter) returns (visible: seq<ChatItem>)
    ensures visible == Visible(s, filter)
  {
    visible := [];
    var n := 0;
    while n < |s|
      invariant 0 <= n <= |s|
      invariant visible == Visible(s[..n], filter)
    {
      assert s[..n + 1][..n] == s[..n];
      if FilterMatches(filter, s[n].Row()) {
        visible := visible + [s[n]];
      }
      n := n + 1;
    }
    assert s[..n] == s;
  }

  method SortChats(s: seq<ChatItem>) returns (sorted: seq<ChatItem>)
    ensures StableSortOf(Entries(s), Entries(sorted)) && ListedInOrder(sorted)
    ensures Distinct(s) ==> Distinct(sorted)
    ensures forall c :: c in s <==> c in sorted
  {
    sorted := InsertAll(s);
    SortedIsStable(Entries(s));
    OrderedIsListed(sorted);
    SameItems(s, sorted);
  }

  method InsertAll(s: seq<ChatItem>) returns (sorted: seq<ChatItem>)
    ensures Entries(sorted) == Sorted(Entries(s))
  {
    sorted := [];
    ghost var entries := Entries(s);
    var n := 0;
    while n < |s|
      invariant 0 <= n <= |s|
      invariant Entries(sorted) == Sorted(entries[..n])
    {
      SortedStep(entries, n);
      sorted := InsertChat(s[n], sorted);
      n := n + 1;
    }
    assert entries[..n] == entries;
  }

  /** One insertion step of the sort: walks back past every chat the new one belongs before. */
  method InsertChat(c: ChatItem, sorted: seq<ChatItem>) returns (r: seq<ChatItem>)
    ensures Entries(r) == Insert(Entry(c, c.Key()), Entries(sorted))
  {
    var j := |sorted|;
    while j > 0 && Before(c.Key(), sorted[j - 1].Key())
      invariant 0 <= j <= |sorted|
      invariant forall i :: j <= i < |sorted| ==> Before(c.Key(), sorted[i].Key())
    {
      j := j - 1;
    }
    InsertAt(Entry(c, c.Key()), Entries(sorted), j);
    r := sorted[..j] + [c] + sorted[j..];
  }

  lemma SameItems(s: seq<ChatItem>, t: seq<ChatItem>)
    requires multiset(Entries(s)) == multiset(Entries(t))
    ensures Distinct(s) ==> Distinct(t)
    ensures forall c :: c in s <==> c in t
  {
    MembersCarryOver(s, t);
    MembersCarryOver(t, s);
    assert |multiset(Entries(s))| == |multiset(Entries(t))|;
    DistinctIsNoDuplicates(s);
    DistinctIsNoDuplicates(t);
    if Distinct(s) {
      DistinctCount(s);
      CountDistinct(t);
      assert Elements(s) == Elements(t);
    }
  }

  lemma MembersCarryOver(s: seq<ChatItem>, t: seq<ChatItem>)
    requires multiset(Entries(s)) == multiset(Entries(t))
    ensures forall c :: c in s ==> c in t
  {
    forall c | c in s ensures c in t {
      var i :| 0 <= i < |s| && s[i] == c;
      assert Entries(s)[i] in multiset(Entries(t));
      var j :| 0 <= j < |t| && Entries(t)[j] == Entries(s)[i];
    }
  }
}
