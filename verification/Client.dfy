/** The window working off the daemon's chat events: onEvent in apps/desktop/window.go. */
module Client {
  import opened Records
  import R = Replica
  import Sidebar

  /** An event carries a chat object of its own. */
  method OnChatEvent(w: Sidebar.Window, e: R.Event)
    requires w.Valid() && w.Fresh()
    modifies w, w.chatIndex.Values
    ensures w.Valid() && w.Fresh()
    ensures w.Rows() == R.Apply(old(w.Rows()), e)
    ensures forall j :: j in old(w.chatIndex) && j in w.chatIndex ==> w.chatIndex[j] == old(w.chatIndex)[j]
    ensures fresh(w.chatIndex.Values - old(w.chatIndex.Values))
  {
    match e {
      case ChatUpdated(chat) =>
        var item := new Sidebar.ChatItem(chat);
        w.UpsertChat(item);
      case ChatDeleted(jid) =>
        w.RemoveChat(jid);
    }
  }

  /** A whole stream of events leaves the rows Replica folds out of it. */
  method OnChatEvents(w: Sidebar.Window, events: seq<R.Event>)
    requires w.Valid() && w.Fresh()
    modifies w, w.chatIndex.Values
    ensures w.Valid() && w.Fresh()
    ensures w.Rows() == R.Fold(old(w.Rows()), events)
  {
    ghost var rows := w.Rows();
    var i := 0;
    while i < |events|
      invariant 0 <= i <= |events|
      invariant w.Valid() && w.Fresh()
      invariant w.Rows() == R.Fold(rows, events[..i])
      invariant fresh(w.chatIndex.Values - old(w.chatIndex.Values))
    {
      R.FoldStep(rows, events, i);
      OnChatEvent(w, events[i]);
      i := i + 1;
    }
    assert events[..i] == events;
  }
}
