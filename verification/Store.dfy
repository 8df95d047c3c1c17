/**
 The Store object (apps/daemon/store/store.go). Its methods run their statements one after the
 other; what they leave in the tables is given by the functions of module Tables.
 */
module Store {
  import opened Records
  import opened Sequences
  import opened Wrappers
  import T = Tables
  import D = Delivery
  import M = Merge

  class Store {
    var chats: map<Jid, Chat>
    var messages: seq<T.Message>
    var media: map<T.Id, T.Media>

    function Tables(): (r: T.Db)
      reads this
    {
      T.Db(chats, messages, media)
    }

    constructor ()
      ensures Tables() == T.Db(map[], [], map[]) && T.Consistent(Tables())
    {
      chats, messages, media := map[], [], map[];
    }

    method UpsertChat(jid: Jid, c: Chat)
      modifies `chats
      ensures chats == T.UpsertChat(old(chats), jid, c)
    {
      var row := c;
      if jid in chats {
        var stored := chats[jid];
        if row.name == "" {
          row := row.(name := stored.name);
        }
        if row.lastMessage == "" {
          row := row.(lastMessage := stored.lastMessage);
        }
        row := row.(updatedAt := Max(row.updatedAt, stored.updatedAt));
      }
      chats := chats[jid := row];
    }

    method TouchChat(jid: Jid, name: string, lastMessage: string, ts: int, isGroup: bool, incrementUnread: bool)
      modifies `chats
      ensures chats == T.TouchChat(old(chats), jid, name, lastMessage, ts, isGroup, incrementUnread)
    {
      var unread := if incrementUnread then 1 else 0;
      if jid !in chats {
        chats := chats[jid := Chat(name, unread, false, false, lastMessage, ts, isGroup, 0)];
        return;
      }
      var row := chats[jid];
      if row.name == "" {
        row := row.(name := name);
      }
      row := row.(unread := row.unread + unread, lastMessage := lastMessage);
      row := row.(updatedAt := Max(ts, row.updatedAt), isGroup := isGroup);
      chats := chats[jid := row];
    }

    /** Nil fields are left untouched; an update that matches no row is reported. */
    method SetChatFlags(jid: Jid, pinned: Option<bool>, archived: Option<bool>,
        mutedUntil: Option<int>) returns (result: T.Result)
      modifies `chats
      ensures (chats, result) == T.SetChatFlags(old(chats), jid, pinned, archived, mutedUntil)
    {
      if pinned.None? && archived.None? && mutedUntil.None? {
        return T.Ok;
      }
      if jid !in chats {
        return T.ErrNotFound;
      }
      var row := chats[jid];
      if pinned.Some? {
        row := row.(pinned := pinned.value);
      }
      if archived.Some? {
        row := row.(archived := archived.value);
        if archived.value {
          row := row.(pinned := false);
        }
      }
      if mutedUntil.Some? {
        row := row.(mutedUntil := mutedUntil.value);
      }
      chats := chats[jid := row];
      return T.Ok;
    }

    method SetChatName(jid: Jid, name: string)
      modifies `chats
      ensures chats == T.SetChatName(old(chats), jid, name)
    {
      if jid in chats {
        chats := chats[jid := chats[jid].(name := name)];
      }
    }

    method ClearUnread(jid: Jid)
      modifies `chats
      ensures chats == T.ClearUnread(old(chats), jid)
    {
      if jid in chats {
        chats := chats[jid := chats[jid].(unread := 0)];
      }
    }

    method RefreshLastMessage(jid: Jid)
      modifies `chats
      ensures chats == T.RefreshLastMessage(old(chats), messages, jid)
    {
      var newest := NewestMessage(jid);
      if jid in chats && newest.Some? {
        chats := chats[jid := chats[jid].(lastMessage := newest.value.body)];
      }
    }

    /** The subquery of the preview refresh, as a scan in rowid order. */
    method NewestMessage(jid: Jid) returns (newest: Option<T.Message>)
      ensures newest == T.Newest(messages, jid)
    {
      newest := None;
      var i := 0;
      while i < |messages|
        invariant 0 <= i <= |messages|
        invariant newest == T.Newest(messages[..i], jid)
      {
        assert messages[..i + 1][..i] == messages[..i];
        if messages[i].chatJid == jid && (newest.None? || messages[i].timestamp > newest.value.timestamp) {
          newest := Some(messages[i]);
        }
        i := i + 1;
      }
      assert messages[..i] == messages;
    }

    /** The message row, then its attachment, each ignored when its key is taken. */
    method InsertMessage(m: T.Incoming)
      modifies `messages, `media
      ensures Tables() == T.InsertMessage(old(Tables()), m)
    {
      if m.row.id !in T.Ids(messages) {
        messages := messages + [m.row];
      }
      if m.media.None? {
        return;
      }
      if m.row.id !in media {
        media := media[m.row.id := m.media.value];
      }
    }

    method InsertMessages(msgs: seq<T.Incoming>)
      modifies `messages, `media
      ensures Tables() == T.InsertBatch(old(Tables()), msgs)
    {
      var i := 0;
      while i < |msgs|
        invariant 0 <= i <= |msgs|
        invariant Tables() == T.InsertBatch(old(Tables()), msgs[..i])
      {
        assert msgs[..i + 1][..i] == msgs[..i];
        InsertMessage(msgs[i]);
        i := i + 1;
      }
      assert msgs[..i] == msgs;
    }

    /** One history conversation: the chat row, its messages and the refreshed preview. */
    method SyncConversation(jid: Jid, c: Chat, msgs: seq<T.Incoming>)
      modifies `chats, `messages, `media
      ensures Tables() == T.SyncConversation(old(Tables()), jid, c, msgs)
    {
      UpsertChat(jid, c);
      InsertMessages(msgs);
      RefreshLastMessage(jid);
    }

    /** When no message row was deleted, the transaction rolls the attachment back too. */
    method DeleteMessage(id: T.Id) returns (result: T.Result)
      modifies `messages, `media
      ensures (Tables(), result) == T.DeleteMessage(old(Tables()), id)
    {
      var rollback := media;
      media := media - {id};
      var remaining := WithoutMessage(id);
      if |remaining| == |messages| {
        media := rollback;
        return T.ErrNotFound;
      }
      messages := remaining;
      return T.Ok;
    }

    method WithoutMessage(id: T.Id) returns (remaining: seq<T.Message>)
      ensures remaining == T.Removed(messages, id)
      ensures |remaining| == |messages| <==> id !in T.Ids(messages)
    {
      remaining := [];
      var i := 0;
      while i < |messages|
        invariant 0 <= i <= |messages| && |remaining| <= i
        invariant remaining == T.Removed(messages[..i], id)
        invariant |remaining| == i <==> forall k :: 0 <= k < i ==> messages[k].id != id
      {
        assert messages[..i + 1][..i] == messages[..i];
        if messages[i].id != id {
          remaining := remaining + [messages[i]];
        }
        i := i + 1;
      }
      assert messages[..i] == messages;
      assert id in T.Ids(messages) <==> exists k :: 0 <= k < |messages| && messages[k].id == id;
    }

    /** Moves the messages, folds the rows, drops the source: one transaction of three statements. */
    method MergeChat(from: Jid, to: Jid)
      modifies `chats, `messages
      ensures Tables() == T.MergeChat(old(Tables()), from, to)
    {
      messages := T.MoveMessages(messages, from, to);
      if from in chats {
        var row := chats[from];
        if to in chats {
          var target := chats[to];
          row := Chat(
            if target.name != "" then target.name else row.name,
            target.unread + row.unread,
            target.archived || row.archived,
            target.pinned || row.pinned,
            if target.lastMessage != "" then target.lastMessage else row.lastMessage,
            Max(target.updatedAt, row.updatedAt),
            target.isGroup,
            target.mutedUntil);
        }
        chats := chats[to := row];
      }
      chats := chats - {from};
    }

    /** SELECT jid FROM chats WHERE jid LIKE '%@lid': each LID row once, in no promised order. */
    method LIDChats() returns (jids: seq<Jid>)
      ensures M.IsScan(jids, chats)
    {
      jids := [];
      var todo := set j | j in chats && j.server == HiddenUserServer;
      while todo != {}
        invariant NoDuplicates(jids)
        invariant forall j :: j in jids ==> j !in todo
        invariant forall j :: j in jids || j in todo <==> j in chats && j.server == HiddenUserServer
        decreases todo
      {
        var j :| j in todo;
        jids := jids + [j];
        todo := todo - {j};
      }
    }

    method UpdateMessageStatus(id: T.Id, status: T.Status) returns (result: T.Result)
      modifies `messages
      ensures (messages, result) == D.UpdateMessageStatus(old(messages), id, status)
    {
      if !D.Ranked(status) {
        messages := D.SetStatus(messages, id, status);
        return T.Ok;
      }
      var current := D.StatusOf(messages, id);
      if current.None? {
        return T.ErrNotFound;
      }
      if D.Ranked(current.value) && D.Rank(current.value) >= D.Rank(status) {
        return T.Ok;
      }
      messages := D.SetStatus(messages, id, status);
      return T.Ok;
    }
  }
}
