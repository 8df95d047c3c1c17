/**
 The daemon's database (apps/daemon/store/store.go) as a table machine: one value per table,
 one function per statement with its ON CONFLICT rule. Transactions are all-or-nothing.
 */
module Tables {
  import opened Records
  import opened Sequences
  import opened Wrappers

  newtype byte = b: int | 0 <= b < 256

  datatype Result = Ok | ErrNotFound

  datatype Id = Id(text: string)
  datatype Status = StatusPending | StatusSent | StatusDelivered | StatusRead | StatusFailed | OtherStatus(text: string)

  datatype Quoted = Quoted(id: Id, sender: string, senderName: string, body: string, kind: string)

  datatype Media = Media(
    path: string, mime: string, size: int, filename: string, caption: string,
    thumbnail: seq<byte>, width: int, height: int, duration: int, payload: seq<byte>)

  datatype Message = Message(
    id: Id,
    chatJid: Jid,
    sender: string,
    senderName: string,
    body: string,
    kind: string,
    timestamp: int,
    outgoing: bool,
    status: Status,
    forwarded: bool,
    reaction: string,
    quoted: Option<Quoted>)

  /** A message as it arrives, with its attachment if it has one. */
  datatype Incoming = Incoming(row: Message, media: Option<Media>)

  /** The tables. Messages are listed in rowid order, which an insert always extends. */
  datatype Db = Db(chats: map<Jid, Chat>, messages: seq<Message>, media: map<Id, Media>)

  // ---------------------------------------------------------------- statements

  /** INSERT INTO chats ... ON CONFLICT(jid) DO UPDATE, as upsertChatTx writes it. */
  function UpsertChat(chats: map<Jid, Chat>, jid: Jid, c: Chat): (r: map<Jid, Chat>) {
    chats[jid := if jid in chats then UpsertRow(chats[jid], c) else c]
  }

  function UpsertRow(stored: Chat, c: Chat): (r: Chat) {
    Chat(
      if c.name != "" then c.name else stored.name,
      c.unread,
      c.archived,
      c.pinned,
      if c.lastMessage != "" then c.lastMessage else stored.lastMessage,
      Max(c.updatedAt, stored.updatedAt),
      c.isGroup,
      c.mutedUntil)
  }

  function TouchChat(chats: map<Jid, Chat>, jid: Jid, name: string, lastMessage: string, ts: int, isGroup: bool,
      incrementUnread: bool): (r: map<Jid, Chat>) {
    var unread := if incrementUnread then 1 else 0;
    if jid in chats then
      var c := chats[jid];
      chats[jid := c.(name := if c.name != "" then c.name else name,
                      unread := c.unread + unread,
                      lastMessage := lastMessage,
                      updatedAt := Max(ts, c.updatedAt),
                      isGroup := isGroup)]
    else
      chats[jid := Chat(name, unread, false, false, lastMessage, ts, isGroup, 0)]
  }

  /** UPDATE chats SET ...: of two assignments to one column, SQLite applies the later one. */
  function SetChatFlags(chats: map<Jid, Chat>, jid: Jid, pinned: Option<bool>, archived: Option<bool>,
      mutedUntil: Option<int>): (r: (map<Jid, Chat>, Result)) {
    if pinned.None? && archived.None? && mutedUntil.None? then (chats, Ok)
    else if jid !in chats then (chats, ErrNotFound)
    else
      var c := chats[jid];
      var c := if pinned.Some? then c.(pinned := pinned.value) else c;
      var c := if archived.Some? then c.(archived := archived.value) else c;
      var c := if archived == Some(true) then c.(pinned := false) else c;
      var c := if mutedUntil.Some? then c.(mutedUntil := mutedUntil.value) else c;
      (chats[jid := c], Ok)
  }

  function SetChatName(chats: map<Jid, Chat>, jid: Jid, name: string): (r: map<Jid, Chat>) {
    if jid in chats then chats[jid := chats[jid].(name := name)] else chats
  }

  function ClearUnread(chats: map<Jid, Chat>, jid: Jid): (r: map<Jid, Chat>) {
    if jid in chats then chats[jid := chats[jid].(unread := 0)] else chats
  }

  function Ids(messages: seq<Message>): (r: set<Id>) {
    set m | m in messages :: m.id
  }

  /** INSERT INTO messages ... ON CONFLICT(id) DO NOTHING. */
  function InsertRow(messages: seq<Message>, m: Message): (r: seq<Message>) {
    if m.id in Ids(messages) then messages else messages + [m]
  }

  /** INSERT INTO media ... ON CONFLICT(id) DO NOTHING, when there is an attachment at all. */
  function InsertMedia(media: map<Id, Media>, id: Id, attachment: Option<Media>): (r: map<Id, Media>) {
    if attachment.None? || id in media then media else media[id := attachment.value]
  }

  function InsertMessage(db: Db, m: Incoming): (r: Db) {
    db.(messages := InsertRow(db.messages, m.row), media := InsertMedia(db.media, m.row.id, m.media))
  }

  function InsertBatch(db: Db, batch: seq<Incoming>): (r: Db) {
    if batch == [] then db
    else InsertMessage(InsertBatch(db, batch[..|batch| - 1]), batch[|batch| - 1])
  }

  /** SELECT ... WHERE chat_jid = ? ORDER BY timestamp DESC LIMIT 1; ties go to the older row. */
  function Newest(messages: seq<Message>, jid: Jid): (r: Option<Message>) {
    if messages == [] then None
    else
      var before, last := Newest(messages[..|messages| - 1], jid), messages[|messages| - 1];
      if last.chatJid == jid && (before.None? || last.timestamp > before.value.timestamp) then Some(last) else before
  }

  function RefreshLastMessage(chats: map<Jid, Chat>, messages: seq<Message>, jid: Jid): (r: map<Jid, Chat>) {
    if jid in chats && Newest(messages, jid).Some?
    then chats[jid := chats[jid].(lastMessage := Newest(messages, jid).value.body)]
    else chats
  }

  function SyncConversation(db: Db, jid: Jid, c: Chat, batch: seq<Incoming>): (r: Db) {
    var db := db.(chats := UpsertChat(db.chats, jid, c));
    var db := InsertBatch(db, batch);
    db.(chats := RefreshLastMessage(db.chats, db.messages, jid))
  }

  function Removed(messages: seq<Message>, id: Id): (r: seq<Message>) {
    if messages == [] then []
    else
      var before, last := Removed(messages[..|messages| - 1], id), messages[|messages| - 1];
      if last.id == id then before else before + [last]
  }

  /** The attachment goes first; when no message row follows, the transaction rolls back. */
  function DeleteMessage(db: Db, id: Id): (r: (Db, Result)) {
    if id !in Ids(db.messages) then (db, ErrNotFound)
    else (db.(media := db.media - {id}, messages := Removed(db.messages, id)), Ok)
  }

  function MoveMessages(messages: seq<Message>, from: Jid, to: Jid): (moved: seq<Message>)
    ensures |moved| == |messages|
    ensures forall i :: 0 <= i < |messages| ==>
              moved[i] == if messages[i].chatJid == from then messages[i].(chatJid := to) else messages[i]
  {
    seq(|messages|, i requires 0 <= i < |messages| =>
      if messages[i].chatJid == from then messages[i].(chatJid := to) else messages[i])
  }

  /** The ON CONFLICT rule of MergeChat: the target row keeps its texts, the counters combine. */
  function MergeRow(target: Chat, source: Chat): (r: Chat) {
    target.(name := if target.name != "" then target.name else source.name,
            unread := target.unread + source.unread,
            archived := target.archived || source.archived,
            pinned := target.pinned || source.pinned,
            lastMessage := if target.lastMessage != "" then target.lastMessage else source.lastMessage,
            updatedAt := Max(target.updatedAt, source.updatedAt))
  }

  function FoldChat(chats: map<Jid, Chat>, from: Jid, to: Jid): (r: map<Jid, Chat>) {
    if from !in chats then chats
    else chats[to := if to in chats then MergeRow(chats[to], chats[from]) else chats[from]]
  }

  function MergeChat(db: Db, from: Jid, to: Jid): (r: Db) {
    db.(messages := MoveMessages(db.messages, from, to), chats := FoldChat(db.chats, from, to) - {from})
  }

  // ---------------------------------------------------------------- what every statement keeps

  /** The primary key of messages, and the rule the code keeps for attachments. */
  ghost predicate UniqueIds(messages: seq<Message>) {
    forall i, j :: 0 <= i < j < |messages| ==> messages[i].id != messages[j].id
  }

  ghost predicate Consistent(db: Db) {
    UniqueIds(db.messages) && db.media.Keys <= Ids(db.messages)
  }

  lemma InsertKeepsConsistent(db: Db, m: Incoming)
    requires Consistent(db)
    ensures Consistent(InsertMessage(db, m))
    ensures Ids(InsertMessage(db, m).messages) == Ids(db.messages) + {m.row.id}
    ensures db.messages <= InsertMessage(db, m).messages
  {
    if m.row.id !in Ids(db.messages) {
      forall i | 0 <= i < |db.messages| ensures db.messages[i].id != m.row.id {
        assert db.messages[i] in db.messages;
      }
    }
  }

  function BatchIds(batch: seq<Incoming>): (r: set<Id>) {
    set m | m in batch :: m.row.id
  }

  /** History replay stores exactly the union of the ids, and never touches a row it has. */
  lemma {:induction false} BatchStoresUnion(db: Db, batch: seq<Incoming>)
    requires Consistent(db)
    ensures Consistent(InsertBatch(db, batch))
    ensures Ids(InsertBatch(db, batch).messages) == Ids(db.messages) + BatchIds(batch)
    ensures db.messages <= InsertBatch(db, batch).messages
    ensures InsertBatch(db, batch).chats == db.chats
  {
    if batch != [] {
      var before, last := batch[..|batch| - 1], batch[|batch| - 1];
      BatchStoresUnion(db, before);
      InsertKeepsConsistent(InsertBatch(db, before), last);
      assert batch == before + [last];
      assert BatchIds(batch) == BatchIds(before) + {last.row.id};
    }
  }

  /** The first row seen for an id is the one kept. */
  lemma {:induction false} FirstRowKept(db: Db, batch: seq<Incoming>, i: nat)
    requires Consistent(db) && i < |batch|
    requires batch[i].row.id !in Ids(db.messages)
    requires forall j :: 0 <= j < i ==> batch[j].row.id != batch[i].row.id
    ensures batch[i].row in InsertBatch(db, batch).messages
  {
    var before := batch[..|batch| - 1];
    if i == |batch| - 1 {
      BatchStoresUnion(db, before);
      assert batch[i].row.id !in BatchIds(before);
    } else {
      FirstRowKept(db, before, i);
    }
  }

  lemma {:induction false} AlreadyStored(db: Db, batch: seq<Incoming>)
    requires BatchIds(batch) <= Ids(db.messages)
    requires forall m :: m in batch && m.media.Some? ==> m.row.id in db.media
    ensures InsertBatch(db, batch) == db
  {
    if batch != [] {
      var before, last := batch[..|batch| - 1], batch[|batch| - 1];
      assert BatchIds(before) <= BatchIds(batch);
      AlreadyStored(db, before);
      assert last in batch;
      assert last.row.id in BatchIds(batch);
    }
  }

  lemma {:induction false} BatchStoresMedia(db: Db, batch: seq<Incoming>)
    ensures db.media.Keys <= InsertBatch(db, batch).media.Keys
    ensures forall m :: m in batch && m.media.Some? ==> m.row.id in InsertBatch(db, batch).media
  {
    if batch != [] {
      BatchStoresMedia(db, batch[..|batch| - 1]);
    }
  }

  /** The preview query returns a message of the chat with the greatest timestamp, if any. */
  lemma {:induction false} NewestIsNewest(messages: seq<Message>, jid: Jid)
    ensures Newest(messages, jid).None? <==> forall m :: m in messages ==> m.chatJid != jid
    ensures Newest(messages, jid).Some? ==>
              var n := Newest(messages, jid).value;
              n in messages && n.chatJid == jid
              && forall m :: m in messages && m.chatJid == jid ==> m.timestamp <= n.timestamp
  {
    if messages != [] {
      var before, last := messages[..|messages| - 1], messages[|messages| - 1];
      NewestIsNewest(before, jid);
      assert messages == before + [last];
    }
  }

  /** Upserting the same row and refreshing the preview again changes nothing. */
  lemma UpsertRefreshIdempotent(chats: map<Jid, Chat>, messages: seq<Message>, jid: Jid, c: Chat)
    ensures var once := RefreshLastMessage(UpsertChat(chats, jid, c), messages, jid);
            RefreshLastMessage(UpsertChat(once, jid, c), messages, jid) == once
  {
    var once := RefreshLastMessage(UpsertChat(chats, jid, c), messages, jid);
    var twice := RefreshLastMessage(UpsertChat(once, jid, c), messages, jid);
    assert twice[jid] == once[jid];
  }

  /** Replaying a conversation changes nothing. */
  lemma SyncConversationIdempotent(db: Db, jid: Jid, c: Chat, batch: seq<Incoming>)
    requires Consistent(db)
    ensures var once := SyncConversation(db, jid, c, batch);
            SyncConversation(once, jid, c, batch) == once
  {
    var once := SyncConversation(db, jid, c, batch);
    var upserted := db.(chats := UpsertChat(db.chats, jid, c));
    BatchStoresUnion(upserted, batch);
    BatchStoresMedia(upserted, batch);
    AlreadyStored(once.(chats := UpsertChat(once.chats, jid, c)), batch);
    UpsertRefreshIdempotent(db.chats, once.messages, jid, c);
  }

  /** After a sync the preview is the body of a newest stored message of the chat. */
  lemma SyncPreviewIsNewest(db: Db, jid: Jid, c: Chat, batch: seq<Incoming>) returns (newest: Message)
    requires Consistent(db)
    requires exists m :: m in SyncConversation(db, jid, c, batch).messages && m.chatJid == jid
    ensures var after := SyncConversation(db, jid, c, batch);
            && newest in after.messages && newest.chatJid == jid
            && (forall m :: m in after.messages && m.chatJid == jid ==> m.timestamp <= newest.timestamp)
            && jid in after.chats && after.chats[jid].lastMessage == newest.body
  {
    var after := SyncConversation(db, jid, c, batch);
    NewestIsNewest(after.messages, jid);
    newest := Newest(after.messages, jid).value;
    BatchStoresUnion(db.(chats := UpsertChat(db.chats, jid, c)), batch);
  }

  lemma SyncKeepsConsistent(db: Db, jid: Jid, c: Chat, batch: seq<Incoming>)
    requires Consistent(db)
    ensures Consistent(SyncConversation(db, jid, c, batch))
    ensures Ids(SyncConversation(db, jid, c, batch).messages) == Ids(db.messages) + BatchIds(batch)
    ensures db.messages <= SyncConversation(db, jid, c, batch).messages
    ensures SyncConversation(db, jid, c, batch).chats.Keys == db.chats.Keys + {jid}
  {
    BatchStoresUnion(db.(chats := UpsertChat(db.chats, jid, c)), batch);
  }

  lemma {:induction false} RemovedMembers(messages: seq<Message>, id: Id)
    ensures forall m :: m in Removed(messages, id) <==> m in messages && m.id != id
  {
    if messages != [] {
      RemovedMembers(messages[..|messages| - 1], id);
      assert messages == messages[..|messages| - 1] + [messages[|messages| - 1]];
    }
  }

  /** Removing another message leaves the newest of a chat the newest. */
  lemma {:induction false} NewestOutlivesOthers(messages: seq<Message>, id: Id, jid: Jid)
    requires Newest(messages, jid).Some? && Newest(messages, jid).value.id != id
    ensures Newest(Removed(messages, id), jid) == Newest(messages, jid)
  {
    var before, last := messages[..|messages| - 1], messages[|messages| - 1];
    if Newest(messages, jid) == Newest(before, jid) {
      NewestOutlivesOthers(before, id, jid);
    } else {
      NewestIsNewest(before, jid);
      RemovedMembers(before, id);
      NewestIsNewest(Removed(before, id), jid);
    }
  }

  lemma {:induction false} RemovedUnique(messages: seq<Message>, id: Id)
    requires UniqueIds(messages)
    ensures UniqueIds(Removed(messages, id))
  {
    if messages != [] {
      var before, last := messages[..|messages| - 1], messages[|messages| - 1];
      RemovedUnique(before, id);
      RemovedMembers(before, id);
      var r := Removed(before, id);
      forall i | 0 <= i < |r| ensures r[i].id != last.id {
        assert r[i] in r;
        var k :| 0 <= k < |before| && before[k] == r[i];
        assert messages[k].id != messages[|messages| - 1].id;
      }
    }
  }

  /** A delete removes one message and its attachment; a failed one rolls back both. */
  lemma DeleteKeepsConsistent(db: Db, id: Id)
    requires Consistent(db)
    ensures var (after, result) := DeleteMessage(db, id);
            && Consistent(after)
            && Ids(after.messages) == Ids(db.messages) - {id}
            && id !in after.media
            && (result == ErrNotFound <==> after == db)
  {
    RemovedMembers(db.messages, id);
    RemovedUnique(db.messages, id);
    assert Ids(Removed(db.messages, id)) == Ids(db.messages) - {id};
  }

  /**
   The preview after a delete: the body of a newest remaining message, but when the chat has
   none left it stays what it was, even if that is the body just deleted.
   */
  lemma PreviewAfterDelete(db: Db, id: Id, jid: Jid)
    requires jid in db.chats && id in Ids(db.messages)
    ensures var deleted := DeleteMessage(db, id).0;
            var left := RefreshLastMessage(deleted.chats, deleted.messages, jid)[jid].lastMessage;
            if forall m :: m in db.messages && m.chatJid == jid ==> m.id == id
            then left == db.chats[jid].lastMessage
            else exists n :: n in deleted.messages && n.chatJid == jid && n.body == left
                   && forall m :: m in deleted.messages && m.chatJid == jid ==> m.timestamp <= n.timestamp
  {
    var deleted := DeleteMessage(db, id).0;
    RemovedMembers(db.messages, id);
    NewestIsNewest(deleted.messages, jid);
  }

  /** Archiving wins over pinning in the same call, and nothing else of the row moves. */
  lemma ArchivingUnpins(chats: map<Jid, Chat>, jid: Jid, pinned: Option<bool>, mutedUntil: Option<int>)
    requires jid in chats
    ensures var (after, result) := SetChatFlags(chats, jid, pinned, Some(true), mutedUntil);
            && result == Ok && after.Keys == chats.Keys
            && after[jid].archived && !after[jid].pinned
            && after[jid] == chats[jid].(archived := true, pinned := false, mutedUntil := after[jid].mutedUntil)
            && forall other :: other in chats && other != jid ==> after[other] == chats[other]
  {
  }

  // ---------------------------------------------------------------- what each statement writes

  /** No row but j's is written. */
  ghost predicate OnlyRow(before: map<Jid, Chat>, after: map<Jid, Chat>, j: Jid) {
    && after.Keys == before.Keys + {j}
    && forall k :: k in before && k != j ==> after[k] == before[k]
  }

  /**
   A touch of a known chat: the preview and the group mark are the new ones, a missing name is
   filled in, the badge grows by one if asked, the activity moves to the later of the two times.
   */
  lemma TouchOfKnownChat(
      chats: map<Jid, Chat>, j: Jid, name: string, preview: string, ts: int, isGroup: bool, incrementUnread: bool)
    requires j in chats
    ensures var after, c := TouchChat(chats, j, name, preview, ts, isGroup, incrementUnread), chats[j];
            && OnlyRow(chats, after, j)
            && after[j].lastMessage == preview && after[j].isGroup == isGroup
            && after[j].name == (if c.name == "" then name else c.name)
            && after[j].unread - c.unread == (if incrementUnread then 1 else 0)
            && after[j].updatedAt >= ts && after[j].updatedAt >= c.updatedAt
            && (after[j].updatedAt == ts || after[j].updatedAt == c.updatedAt)
            && after[j].archived == c.archived && after[j].pinned == c.pinned && after[j].mutedUntil == c.mutedUntil
  {
  }

  /** The first message of an unknown chat. */
  lemma TouchOfNewChat(
      chats: map<Jid, Chat>, j: Jid, name: string, preview: string, ts: int, isGroup: bool, incrementUnread: bool)
    requires j !in chats
    ensures var after := TouchChat(chats, j, name, preview, ts, isGroup, incrementUnread);
            && OnlyRow(chats, after, j)
            && after[j].name == name && after[j].lastMessage == preview
            && after[j].unread == (if incrementUnread then 1 else 0)
            && after[j].updatedAt == ts && after[j].isGroup == isGroup
            && !after[j].archived && !after[j].pinned && after[j].mutedUntil == 0
  {
  }

  /** Each flag that is given is set, the others stay; archiving unpins, whatever was asked. */
  lemma FlagsAreSet(
      chats: map<Jid, Chat>, j: Jid, pinned: Option<bool>, archived: Option<bool>, mutedUntil: Option<int>)
    requires j in chats
    ensures var (after, result) := SetChatFlags(chats, j, pinned, archived, mutedUntil);
            && result == Ok && OnlyRow(chats, after, j)
            && after[j].archived == (if archived.Some? then archived.value else chats[j].archived)
            && (archived == Some(true) ==> !after[j].pinned)
            && (archived != Some(true) ==> after[j].pinned == if pinned.Some? then pinned.value else chats[j].pinned)
            && after[j].mutedUntil == (if mutedUntil.Some? then mutedUntil.value else chats[j].mutedUntil)
            && after[j].name == chats[j].name && after[j].unread == chats[j].unread
            && after[j].lastMessage == chats[j].lastMessage
            && after[j].updatedAt == chats[j].updatedAt && after[j].isGroup == chats[j].isGroup
  {
  }

  /** A flag for a chat that is not stored is reported, and a call without flags is not. */
  lemma FlagsOfUnknownChat(
      chats: map<Jid, Chat>, j: Jid, pinned: Option<bool>, archived: Option<bool>, mutedUntil: Option<int>)
    requires j !in chats
    ensures var (after, result) := SetChatFlags(chats, j, pinned, archived, mutedUntil);
            after == chats && (result == ErrNotFound <==> pinned.Some? || archived.Some? || mutedUntil.Some?)
  {
  }

  /**
   A synced chat: the phone's badge, flags, mute and group mark replace what was stored; an empty
   name leaves the stored one, and the activity never moves back.
   */
  lemma SyncWritesRow(db: Db, j: Jid, c: Chat, batch: seq<Incoming>)
    ensures var after := SyncConversation(db, j, c, batch).chats;
            && OnlyRow(db.chats, after, j)
            && after[j].unread == c.unread && after[j].archived == c.archived && after[j].pinned == c.pinned
            && after[j].isGroup == c.isGroup && after[j].mutedUntil == c.mutedUntil
            && after[j].name == (if c.name == "" && j in db.chats then db.chats[j].name else c.name)
            && after[j].updatedAt >= c.updatedAt && (j in db.chats ==> after[j].updatedAt >= db.chats[j].updatedAt)
            && (after[j].updatedAt == c.updatedAt || (j in db.chats && after[j].updatedAt == db.chats[j].updatedAt))
  {
    BatchKeepsChats(db.(chats := UpsertChat(db.chats, j, c)), batch);
  }

  /** Without a message to show, a synced chat keeps its preview, or takes the one it comes with. */
  lemma SyncKeepsPreview(db: Db, j: Jid, c: Chat, batch: seq<Incoming>)
    requires Newest(SyncConversation(db, j, c, batch).messages, j).None?
    ensures var after := SyncConversation(db, j, c, batch).chats;
            var kept := if c.lastMessage == "" && j in db.chats then db.chats[j].lastMessage else c.lastMessage;
            j in after && after[j].lastMessage == kept
  {
    BatchKeepsChats(db.(chats := UpsertChat(db.chats, j, c)), batch);
  }

  lemma {:induction false} BatchKeepsChats(db: Db, batch: seq<Incoming>)
    ensures InsertBatch(db, batch).chats == db.chats
  {
    if batch != [] {
      BatchKeepsChats(db, batch[..|batch| - 1]);
    }
  }

  /** The updates of one column write that column alone. */
  lemma OneColumnWrites(chats: map<Jid, Chat>, messages: seq<Message>, j: Jid, name: string)
    requires j in chats
    ensures var read, named := ClearUnread(chats, j), SetChatName(chats, j, name);
            var shown := RefreshLastMessage(chats, messages, j);
            && OnlyRow(chats, read, j) && OnlyRow(chats, named, j) && OnlyRow(chats, shown, j)
            && read[j] == chats[j].(unread := read[j].unread) && read[j].unread == 0
            && named[j] == chats[j].(name := named[j].name) && named[j].name == name
            && shown[j] == chats[j].(lastMessage := shown[j].lastMessage)
  {
  }

  /** A delete takes one message out of the list, the rest in their order, and its attachment. */
  lemma {:induction false} RemovedIsOne(messages: seq<Message>, id: Id) returns (i: nat)
    requires UniqueIds(messages) && id in Ids(messages)
    ensures i < |messages| && messages[i].id == id && Removed(messages, id) == messages[..i] + messages[i + 1..]
  {
    var before, last := messages[..|messages| - 1], messages[|messages| - 1];
    InitAndLast(messages);
    if last.id == id {
      i := |messages| - 1;
      forall k | 0 <= k < |before| ensures before[k].id != id {
        assert messages[k].id != messages[|messages| - 1].id;
      }
      RemovedNone(before, id);
    } else {
      i := RemovedIsOne(before, id);
      CutBeforeLast(messages, i);
    }
  }

  lemma CutBeforeLast(messages: seq<Message>, i: nat)
    requires i + 1 < |messages|
    ensures var before := messages[..|messages| - 1];
            before[..i] + before[i + 1..] + [messages[|messages| - 1]] == messages[..i] + messages[i + 1..]
  {
  }

  lemma {:induction false} RemovedNone(messages: seq<Message>, id: Id)
    requires forall k :: 0 <= k < |messages| ==> messages[k].id != id
    ensures Removed(messages, id) == messages
  {
    if messages != [] {
      RemovedNone(messages[..|messages| - 1], id);
    }
  }

  lemma DeleteTakesOneMessage(db: Db, id: Id) returns (i: nat)
    requires Consistent(db) && id in Ids(db.messages)
    ensures var (after, result) := DeleteMessage(db, id);
            && result == Ok && after.chats == db.chats
            && i < |db.messages| && db.messages[i].id == id
            && after.messages == db.messages[..i] + db.messages[i + 1..]
            && forall k :: (k in after.media <==> k in db.media && k != id)
                 && (k in after.media ==> after.media[k] == db.media[k])
  {
    i := RemovedIsOne(db.messages, id);
  }

  /** Message i is the first of the batch that brings an attachment for id, and this is it. */
  ghost predicate FirstMedia(batch: seq<Incoming>, id: Id, i: nat, media: Media) {
    && i < |batch| && batch[i].row.id == id && batch[i].media == Some(media)
    && forall k :: 0 <= k < i && batch[k].row.id == id ==> batch[k].media.None?
  }

  /** Replay never replaces an attachment, and the first one that comes for a message is kept. */
  lemma {:induction false} FirstMediaKept(db: Db, batch: seq<Incoming>, id: Id)
    ensures var after := InsertBatch(db, batch).media;
            && (id in db.media ==> id in after && after[id] == db.media[id])
            && (id in after && id !in db.media ==> exists i :: FirstMedia(batch, id, i, after[id]))
  {
    if batch != [] {
      var before, last := batch[..|batch| - 1], batch[|batch| - 1];
      FirstMediaKept(db, before, id);
      var mid := InsertBatch(db, before);
      if id !in db.media && id in mid.media {
        var i :| FirstMedia(before, id, i, mid.media[id]);
        assert FirstMedia(batch, id, i, mid.media[id]);
      } else if id !in db.media && last.row.id == id && last.media.Some? {
        BatchStoresMedia(db, before);
        FirstMediaIsLast(batch, id);
      }
    }
  }

  lemma FirstMediaIsLast(batch: seq<Incoming>, id: Id)
    requires batch != [] && batch[|batch| - 1].row.id == id && batch[|batch| - 1].media.Some?
    requires forall m :: m in batch[..|batch| - 1] && m.row.id == id ==> m.media.None?
    ensures FirstMedia(batch, id, |batch| - 1, batch[|batch| - 1].media.value)
  {
    forall k | 0 <= k < |batch| - 1 && batch[k].row.id == id ensures batch[k].media.None? {
      assert batch[k] in batch[..|batch| - 1];
    }
  }

  // ---------------------------------------------------------------- history queue

  /**
   History events are handed to one worker through a bounded queue, or processed by the
   event loop itself when the queue is full (session.go, handleEvent; history.go).
   */
  const HISTORY_QUEUE: nat := 8

  datatype Conversation = Conversation(jid: Jid, chat: Chat, batch: seq<Incoming>)

  /** A history event brings any number of conversations; one event takes one slot of the queue. */
  type HistoryEvent = seq<Conversation>

  /** `dropped` are the events whose processing found no client. */
  datatype History = History(
    arrived: seq<HistoryEvent>, queue: seq<HistoryEvent>, done: seq<HistoryEvent>, dropped: seq<HistoryEvent>)

  /** `client` says whether there is one when an event is processed. */
  datatype HistoryStep = Arrive(e: HistoryEvent, client: bool) | Work(client: bool)

  function Process(h: History, e: HistoryEvent, client: bool): (r: History) {
    if client then h.(done := h.done + [e]) else h.(dropped := h.dropped + [e])
  }

  function HistoryNext(h: History, step: HistoryStep): (r: History) {
    match step
    case Arrive(e, client) =>
      var h := h.(arrived := h.arrived + [e]);
      if |h.queue| < HISTORY_QUEUE then h.(queue := h.queue + [e]) else Process(h, e, client)
    case Work(client) =>
      if h.queue == [] then h else Process(h.(queue := h.queue[1..]), h.queue[0], client)
  }

  function HistoryRun(steps: seq<HistoryStep>): (r: History) {
    if steps == [] then History([], [], [], [])
    else HistoryNext(HistoryRun(steps[..|steps| - 1]), steps[|steps| - 1])
  }

  /** processHistorySync: the conversations of one event, in order. */
  function SyncEvent(db: Db, e: HistoryEvent): (r: Db) {
    if e == [] then db
    else
      var c := e[|e| - 1];
      SyncConversation(SyncEvent(db, e[..|e| - 1]), c.jid, c.chat, c.batch)
  }

  function SyncAll(db: Db, done: seq<HistoryEvent>): (r: Db) {
    if done == [] then db else SyncEvent(SyncAll(db, done[..|done| - 1]), done[|done| - 1])
  }

  /** Does the event bring a message with that id? */
  ghost predicate Brings(e: HistoryEvent, id: Id) {
    exists c :: c in e && id in BatchIds(c.batch)
  }

  ghost predicate Accounted(h: History) {
    multiset(h.arrived) == multiset(h.queue) + multiset(h.done) + multiset(h.dropped)
  }

  lemma HistoryNextAccounts(h: History, step: HistoryStep)
    requires Accounted(h)
    ensures Accounted(HistoryNext(h, step))
  {
    match step
    case Arrive(e, client) =>
      ProcessAccounts(h.(arrived := h.arrived + [e]), e, client);
    case Work(client) =>
      if h.queue != [] {
        assert h.queue == [h.queue[0]] + h.queue[1..];
        ProcessAccounts(h.(queue := h.queue[1..]), h.queue[0], client);
      }
  }

  lemma ProcessAccounts(h: History, e: HistoryEvent, client: bool)
    ensures var after := Process(h, e, client);
            && after.arrived == h.arrived && after.queue == h.queue
            && multiset(after.done) + multiset(after.dropped) == multiset(h.done) + multiset(h.dropped) + multiset{e}
  {
  }

  /** The queue never was full when an event arrived. */
  predicate NeverFull(steps: seq<HistoryStep>) {
    steps != [] ==>
      var before, last := steps[..|steps| - 1], steps[|steps| - 1];
      NeverFull(before) && (last.Arrive? ==> |HistoryRun(before).queue| < HISTORY_QUEUE)
  }

  /** Then, with a client at hand, the worker processes the events in the order they arrived. */
  lemma {:induction false} HistoryInOrder(steps: seq<HistoryStep>)
    requires NeverFull(steps) && AlwaysClient(steps)
    ensures var h := HistoryRun(steps); h.arrived == h.done + h.queue
  {
    if steps != [] {
      HistoryInOrder(steps[..|steps| - 1]);
    }
  }

  /** A client was there whenever an event was processed. */
  predicate AlwaysClient(steps: seq<HistoryStep>) {
    steps != [] ==>
      var before, last := steps[..|steps| - 1], steps[|steps| - 1];
      && AlwaysClient(before)
      && (last.client ||
          (if last.Arrive? then |HistoryRun(before).queue| < HISTORY_QUEUE else HistoryRun(before).queue == []))
  }

  /** Every arrived event is waiting, processed or dropped, exactly once; dropped only without a client. */
  lemma {:induction false} NothingLost(steps: seq<HistoryStep>)
    ensures Accounted(HistoryRun(steps))
    ensures |HistoryRun(steps).queue| <= HISTORY_QUEUE
    ensures HistoryRun(steps).dropped == [] <==> AlwaysClient(steps)
  {
    if steps != [] {
      NothingLost(steps[..|steps| - 1]);
      HistoryNextAccounts(HistoryRun(steps[..|steps| - 1]), steps[|steps| - 1]);
    }
  }

  lemma {:induction false} SyncEventStoresUnion(db: Db, e: HistoryEvent, id: Id)
    requires Consistent(db)
    ensures Consistent(SyncEvent(db, e))
    ensures db.messages <= SyncEvent(db, e).messages
    ensures id in Ids(SyncEvent(db, e).messages) <==> id in Ids(db.messages) || Brings(e, id)
  {
    if e != [] {
      var before, c := e[..|e| - 1], e[|e| - 1];
      InitAndLast(e);
      SyncEventStoresUnion(db, before, id);
      SyncKeepsConsistent(SyncEvent(db, before), c.jid, c.chat, c.batch);
      assert Brings(e, id) <==> Brings(before, id) || id in BatchIds(c.batch);
    }
  }

  lemma {:induction false} SyncAllStoresUnion(db: Db, done: seq<HistoryEvent>, id: Id)
    requires Consistent(db)
    ensures Consistent(SyncAll(db, done))
    ensures db.messages <= SyncAll(db, done).messages
    ensures id in Ids(SyncAll(db, done).messages) <==> id in Ids(db.messages) || exists e :: e in done && Brings(e, id)
  {
    if done != [] {
      var before, e := done[..|done| - 1], done[|done| - 1];
      InitAndLast(done);
      SyncAllStoresUnion(db, before, id);
      SyncEventStoresUnion(SyncAll(db, before), e, id);
    }
  }

  /**
   Once the queue is empty the stored ids are exactly those of the events processed, whatever
   was queued, run inline or reordered by that, and every row stored before is still there
   untouched. If there always was a client, those are the ids of all events that arrived.
   */
  lemma HistoryStoresEverything(db: Db, steps: seq<HistoryStep>, id: Id)
    requires Consistent(db) && HistoryRun(steps).queue == []
    ensures var h := HistoryRun(steps);
            var after := SyncAll(db, h.done);
            && Consistent(after)
            && db.messages <= after.messages
            && (id in Ids(after.messages) <==> id in Ids(db.messages) || exists e :: e in h.done && Brings(e, id))
            && (AlwaysClient(steps) ==>
                  (id in Ids(after.messages) <==>
                     id in Ids(db.messages) || exists e :: e in h.arrived && Brings(e, id)))
  {
    var h := HistoryRun(steps);
    NothingLost(steps);
    SyncAllStoresUnion(db, h.done, id);
    if AlwaysClient(steps) {
      assert multiset(h.arrived) == multiset(h.done);
      assert forall e :: e in h.arrived <==> e in multiset(h.arrived);
      assert forall e :: e in h.done <==> e in multiset(h.done);
    }
  }
}
