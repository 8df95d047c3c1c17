/**
 The daemon's write-then-publish steps (apps/daemon/wa/session.go, actions.go, history.go and
 GetMessages of service/service.go) on a Store object, each proved to be one step of Replica.
 */
module Session {
  import opened Records
  import opened Wrappers
  import T = Tables
  import D = Delivery
  import M = Merge
  import R = Replica
  import Store

  class Session {
    const store: Store.Store
    /** The chat events handed to the broker so far. */
    var published: seq<R.Event>

    constructor (store: Store.Store)
      ensures this.store == store && published == []
    {
      this.store := store;
      published := [];
    }

    /** The tables and the published events after a step are the ones Replica gives. */
    ghost predicate Performed(db: T.Db, events: seq<R.Event>, step: R.Step)
      reads this, store
    {
      store.Tables() == R.Perform(db, step).db && published == events + R.Perform(db, step).events
    }

    method PublishChat(jid: Jid)
      modifies `published
      ensures published == old(published) + R.PublishChat(store.Tables(), jid)
    {
      if jid in store.chats {
        published := published + [R.ChatUpdated(ToProtoChat(jid, store.chats[jid]))];
      }
    }

    /**
     Folds chats stored under a LID onto their phone JID. `failed` are the rows whose merge
     transaction fails; the scan order is whatever the query answers.
     */
    method MergeLIDChats(alt: map<Jid, Jid>, failed: set<Jid>) returns (ghost scan: seq<Jid>)
      modifies this, store
      ensures M.IsScan(scan, old(store.chats))
      ensures Performed(old(store.Tables()), old(published), R.MergeLids(alt, failed, scan))
    {
      var chats := store.LIDChats();
      scan := chats;
      MergeScanned(alt, failed, chats);
    }

    method MergeScanned(alt: map<Jid, Jid>, failed: set<Jid>, chats: seq<Jid>)
      modifies this, store
      ensures Merged(old(store.Tables()), old(published), alt, failed, chats)
    {
      ghost var db, events := store.Tables(), published;
      var i := 0;
      while i < |chats|
        invariant 0 <= i <= |chats|
        invariant Merged(db, events, alt, failed, chats[..i])
      {
        MergeOne(alt, failed, chats[i], db, events, chats[..i]);
        assert chats[..i + 1] == chats[..i] + [chats[i]];
        i := i + 1;
      }
      assert chats[..i] == chats;
    }

    /** The tables and events after the turns for some chats. */
    ghost predicate Merged(db: T.Db, events: seq<R.Event>, alt: map<Jid, Jid>, failed: set<Jid>, done: seq<Jid>)
      reads this, store
    {
      && store.Tables() == M.MergeAll(db, alt, failed, done)
      && published == events + R.MergeEvents(db, alt, failed, done)
    }

    method MergeOne(alt: map<Jid, Jid>, failed: set<Jid>, jid: Jid, ghost db: T.Db, ghost events: seq<R.Event>,
        ghost done: seq<Jid>)
      requires Merged(db, events, alt, failed, done)
      modifies this, store
      ensures Merged(db, events, alt, failed, done + [jid])
    {
      R.MergeTurn(db, alt, failed, done, jid);
      var canonical := M.Canonical(alt, jid);
      if canonical == jid || jid in failed {
        return;
      }
      store.MergeChat(jid, canonical);
      published := published + [R.ChatDeleted(jid)];
      PublishChat(canonical);
    }

    /** UpdateChat and onAppStateChat: set the flags, then publish the row. */
    method SetFlags(jid: Jid, pinned: Option<bool>, archived: Option<bool>,
        mutedUntil: Option<int>) returns (result: T.Result)
      modifies this, store
      ensures Performed(old(store.Tables()), old(published), R.SetFlags(jid, pinned, archived, mutedUntil))
    {
      result := store.SetChatFlags(jid, pinned, archived, mutedUntil);
      if result != T.Ok {
        return;
      }
      PublishChat(jid);
    }

    /** A live message: its row, its chat's preview and unread count, then the chat's event. */
    method OnMessage(m: T.Incoming, name: string, isGroup: bool)
      modifies this, store
      ensures Performed(old(store.Tables()), old(published), R.ReceiveMessage(m, name, isGroup))
    {
      store.InsertMessage(m);
      store.TouchChat(m.row.chatJid, name, m.row.body, m.row.timestamp, isGroup, !m.row.outgoing);
      PublishChat(m.row.chatJid);
    }

    /** DeleteMessage, onDeleteForMe and onRevoke. */
    method DeleteMessage(id: T.Id, jid: Jid) returns (result: T.Result)
      modifies this, store
      ensures Performed(old(store.Tables()), old(published), R.Delete(id, jid))
    {
      result := store.DeleteMessage(id);
      if result != T.Ok {
        return;
      }
      store.RefreshLastMessage(jid);
      PublishChat(jid);
    }

    /** Opening a chat clears its unread badge, and only then is there anything to tell. */
    method OpenChat(jid: Jid)
      modifies this, store
      ensures Performed(old(store.Tables()), old(published), R.OpenChat(jid))
    {
      if jid in store.chats && store.chats[jid].unread > 0 {
        store.ClearUnread(jid);
        PublishChat(jid);
      }
    }

    method SyncHistory(c: T.Conversation)
      modifies this, store
      ensures Performed(old(store.Tables()), old(published), R.SyncHistory(c))
    {
      store.SyncConversation(c.jid, c.chat, c.batch);
      PublishChat(c.jid);
    }

    /** One turn of backfillChatNames; `name` is what the contact lookup gave. */
    method BackfillName(jid: Jid, name: string)
      modifies this, store
      ensures Performed(old(store.Tables()), old(published), R.BackfillName(jid, name))
    {
      if name == "" || name == jid.user {
        return;
      }
      store.SetChatName(jid, name);
      PublishChat(jid);
    }

    /** The server acknowledged a send: its timestamp, the sent status, the sender, the preview. */
    method FinishSend(
        id: T.Id, jid: Jid, name: string, preview: string, ts: int, sender: string, isGroup: bool)
      modifies this, store
      ensures Performed(old(store.Tables()), old(published), R.FinishSend(id, jid, name, preview, ts, sender, isGroup))
    {
      store.messages := R.SetTimestamp(store.messages, id, ts);
      var _ := store.UpdateMessageStatus(id, T.StatusSent);
      store.messages := R.CorrectSender(store.messages, id, sender);
      store.TouchChat(jid, name, preview, ts, isGroup, false);
      PublishChat(jid);
    }

    /** ReactMessage, once the reaction went out. The message's event is not a chat event. */
    method React(id: T.Id, reaction: string)
      modifies store
      ensures Performed(old(store.Tables()), old(published), R.React(id, reaction))
    {
      store.messages := R.SetReaction(store.messages, id, reaction);
    }

    /** Creates a direct chat row; the caller gets it as the reply, nothing is published. */
    method StartChat(jid: Jid, name: string)
      modifies store
      ensures Performed(old(store.Tables()), old(published), R.StartChat(jid, name))
    {
      if jid !in store.chats {
        store.UpsertChat(jid, Chat(name, 0, false, false, "", 0, false, 0));
      }
    }
  }
}
