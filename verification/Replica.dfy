/**
 The sidebar as a replica of the daemon's chat table: every daemon step writes rows and then
 publishes events (apps/daemon/wa/session.go, actions.go, history.go, service/service.go), and
 the window folds those events into its index (apps/desktop/window.go). Steps are serial and no
 event is dropped.
 */
module Replica {
  import opened Records
  import opened Sequences
  import opened Tables
  import opened Wrappers
  import Delivery
  import Merge
  import Sidebar

  datatype Event = ChatUpdated(chat: ProtoChat) | ChatDeleted(jid: Jid)

  /** What UpsertChat and RemoveChat of the window do to its rows. */
  function Apply(rows: map<Jid, ProtoChat>, e: Event): (r: map<Jid, ProtoChat>) {
    match e
    case ChatUpdated(chat) => rows[chat.jid := chat]
    case ChatDeleted(jid) => rows - {jid}
  }

  function Fold(rows: map<Jid, ProtoChat>, events: seq<Event>): (r: map<Jid, ProtoChat>) {
    if events == [] then rows else Apply(Fold(rows, events[..|events| - 1]), events[|events| - 1])
  }

  /** publishChat: nothing is published for a chat that is not stored. */
  function PublishChat(db: Db, jid: Jid): (r: seq<Event>)
    ensures r == [] <==> jid !in db.chats
    ensures r != [] ==> |r| == 1 && r[0].ChatUpdated? && Shows(r[0].chat, jid, db.chats[jid])
  {
    if jid in db.chats then [ChatUpdated(ToProtoChat(jid, db.chats[jid]))] else []
  }

  // ---------------------------------------------------------------- daemon steps

  datatype Outcome = Outcome(db: Db, events: seq<Event>)

  datatype Step =
    | MergeLids(alt: map<Jid, Jid>, failed: set<Jid>, scan: seq<Jid>)
    | SetFlags(jid: Jid, pinned: Option<bool>, archived: Option<bool>, mutedUntil: Option<int>)
    | ReceiveMessage(m: Incoming, name: string, isGroup: bool)
    | InsertOutgoing(m: Incoming)
    | StatusUpdate(id: Id, status: Status)
    | FinishSend(id: Id, jid: Jid, name: string, preview: string, ts: int, sender: string, isGroup: bool)
    | React(id: Id, reaction: string)
    | Delete(id: Id, jid: Jid)
    | OpenChat(jid: Jid)
    | SyncHistory(c: Conversation)
    | BackfillName(jid: Jid, name: string)
    | StartChat(jid: Jid, name: string)

  /** One turn of mergeLIDChats: the old JID is withdrawn, the canonical row announced. */
  function MergeEvents(db: Db, alt: map<Jid, Jid>, failed: set<Jid>, scan: seq<Jid>): (r: seq<Event>) {
    if scan == [] then []
    else
      var before, jid := scan[..|scan| - 1], scan[|scan| - 1];
      MergeEvents(db, alt, failed, before)
      + TurnEvents(Merge.MergeAll(db, alt, failed, before), alt, failed, jid)
  }

  function TurnEvents(db: Db, alt: map<Jid, Jid>, failed: set<Jid>, jid: Jid): (r: seq<Event>) {
    var canonical := Merge.Canonical(alt, jid);
    if canonical == jid || jid in failed then []
    else [ChatDeleted(jid)] + PublishChat(MergeChat(db, jid, canonical), canonical)
  }

  lemma MergeTurn(db: Db, alt: map<Jid, Jid>, failed: set<Jid>, done: seq<Jid>, jid: Jid)
    ensures Merge.MergeAll(db, alt, failed, done + [jid])
         == Merge.MergeStep(Merge.MergeAll(db, alt, failed, done), alt, failed, jid)
    ensures MergeEvents(db, alt, failed, done + [jid])
         == MergeEvents(db, alt, failed, done) + TurnEvents(Merge.MergeAll(db, alt, failed, done), alt, failed, jid)
  {
    assert (done + [jid])[..|done|] == done;
  }

  function SetTimestamp(messages: seq<Message>, id: Id, ts: int): (r: seq<Message>) {
    seq(|messages|, i requires 0 <= i < |messages| =>
      if messages[i].id == id then messages[i].(timestamp := ts) else messages[i])
  }

  /** The identity a message was sent with, when the server's answer names one. */
  function CorrectSender(messages: seq<Message>, id: Id, sender: string): (r: seq<Message>) {
    seq(|messages|, i requires 0 <= i < |messages| =>
      if messages[i].id == id && sender != "" then messages[i].(sender := sender) else messages[i])
  }

  function SetReaction(messages: seq<Message>, id: Id, reaction: string): (r: seq<Message>) {
    seq(|messages|, i requires 0 <= i < |messages| =>
      if messages[i].id == id then messages[i].(reaction := reaction) else messages[i])
  }

  function Perform(db: Db, step: Step): (r: Outcome) {
    match step
    case MergeLids(alt, failed, scan) =>
      Outcome(Merge.MergeAll(db, alt, failed, scan), MergeEvents(db, alt, failed, scan))
    case SetFlags(jid, pinned, archived, mutedUntil) =>
      var (chats, result) := SetChatFlags(db.chats, jid, pinned, archived, mutedUntil);
      var after := db.(chats := chats);
      Outcome(after, if result == Ok then PublishChat(after, jid) else [])
    case ReceiveMessage(m, name, isGroup) =>
      var stored := InsertMessage(db, m);
      var row := m.row;
      var after := stored.(
        chats := TouchChat(stored.chats, row.chatJid, name, row.body, row.timestamp, isGroup, !row.outgoing));
      Outcome(after, PublishChat(after, m.row.chatJid))
    case InsertOutgoing(m) =>
      Outcome(InsertMessage(db, m), [])
    case StatusUpdate(id, status) =>
      Outcome(db.(messages := Delivery.UpdateMessageStatus(db.messages, id, status).0), [])
    case React(id, reaction) =>
      Outcome(db.(messages := SetReaction(db.messages, id, reaction)), [])
    case FinishSend(id, jid, name, preview, ts, sender, isGroup) =>
      var sent := Delivery.UpdateMessageStatus(SetTimestamp(db.messages, id, ts), id, StatusSent).0;
      var after := db.(
        messages := CorrectSender(sent, id, sender),
        chats := TouchChat(db.chats, jid, name, preview, ts, isGroup, false));
      Outcome(after, PublishChat(after, jid))
    case Delete(id, jid) =>
      var (deleted, result) := DeleteMessage(db, id);
      if result != Ok then Outcome(db, [])
      else
        var after := deleted.(chats := RefreshLastMessage(deleted.chats, deleted.messages, jid));
        Outcome(after, PublishChat(after, jid))
    case OpenChat(jid) =>
      if jid !in db.chats || db.chats[jid].unread <= 0 then Outcome(db, [])
      else
        var after := db.(chats := ClearUnread(db.chats, jid));
        Outcome(after, PublishChat(after, jid))
    case SyncHistory(c) =>
      var after := SyncConversation(db, c.jid, c.chat, c.batch);
      Outcome(after, PublishChat(after, c.jid))
    case BackfillName(jid, name) =>
      if name == "" || name == jid.user then Outcome(db, []) else
      var after := db.(chats := SetChatName(db.chats, jid, name));
      Outcome(after, PublishChat(after, jid))
    case StartChat(jid, name) =>
      var row := Chat(name, 0, false, false, "", 0, false, 0);
      Outcome(if jid in db.chats then db else db.(chats := UpsertChat(db.chats, jid, row)), [])
  }

  // ---------------------------------------------------------------- agreement

  /** The table as a fully informed client would show it. */
  function Image(chats: map<Jid, Chat>): (r: map<Jid, ProtoChat>) {
    map j | j in chats :: ToProtoChat(j, chats[j])
  }

  /** The image shows every stored row and nothing else. */
  lemma ImageShows(chats: map<Jid, Chat>)
    ensures Image(chats).Keys == chats.Keys && Agrees(Image(chats), chats)
    ensures forall rows :: Agrees(rows, chats) && rows.Keys == chats.Keys ==> rows == Image(chats)
  {
  }

  /** Every row the client has is the stored row, field for field. */
  ghost predicate Agrees(rows: map<Jid, ProtoChat>, chats: map<Jid, Chat>) {
    forall j :: j in rows ==> j in chats && Shows(rows[j], j, chats[j])
  }

  /** No row but j's changes, and j's is not dropped. */
  ghost predicate ChangesOnly(before: map<Jid, Chat>, after: map<Jid, Chat>, j: Jid) {
    && (forall k :: k != j ==> (k in before <==> k in after) && (k in before && k in after ==> before[k] == after[k]))
    && (j in before ==> j in after)
  }

  lemma FoldOne(rows: map<Jid, ProtoChat>, e: Event)
    ensures Fold(rows, [e]) == Apply(rows, e)
    ensures Fold(rows, []) == rows
  {
    assert [e][..0] == [];
  }

  lemma FoldStep(rows: map<Jid, ProtoChat>, events: seq<Event>, i: nat)
    requires i < |events|
    ensures Fold(rows, events[..i + 1]) == Apply(Fold(rows, events[..i]), events[i])
  {
    assert events[..i + 1][..i] == events[..i];
  }

  lemma {:induction false} FoldConcat(rows: map<Jid, ProtoChat>, a: seq<Event>, b: seq<Event>)
    ensures Fold(rows, a + b) == Fold(Fold(rows, a), b)
  {
    if b == [] {
      assert a + b == a;
    } else {
      FoldConcat(rows, a, b[..|b| - 1]);
      assert (a + b)[..|a + b| - 1] == a + b[..|b| - 1];
    }
  }

  /** Writing one row and publishing it keeps the replica in step. */
  lemma TouchKeepsAgreement(rows: map<Jid, ProtoChat>, before: Db, after: Db, j: Jid)
    requires ChangesOnly(before.chats, after.chats, j)
    ensures Agrees(rows, before.chats) ==> Agrees(Fold(rows, PublishChat(after, j)), after.chats)
    ensures rows == Image(before.chats) ==> Fold(rows, PublishChat(after, j)) == Image(after.chats)
  {
    if j in after.chats {
      FoldOne(rows, ChatUpdated(ToProtoChat(j, after.chats[j])));
    }
    WriteKeepsImage(before.chats, after.chats, j);
    if Agrees(rows, before.chats) {
      WriteKeepsAgreement(rows, before.chats, after.chats, j);
    }
  }

  lemma WriteKeepsAgreement(rows: map<Jid, ProtoChat>, before: map<Jid, Chat>, after: map<Jid, Chat>, j: Jid)
    requires ChangesOnly(before, after, j) && Agrees(rows, before)
    ensures Agrees(if j in after then rows[j := ToProtoChat(j, after[j])] else rows, after)
  {
  }

  lemma WriteKeepsImage(before: map<Jid, Chat>, after: map<Jid, Chat>, j: Jid)
    requires ChangesOnly(before, after, j)
    ensures Image(after) == if j in after then Image(before)[j := ToProtoChat(j, after[j])] else Image(before)
  {
  }

  /** Withdrawing the old JID and announcing the canonical one keeps it in step too. */
  lemma MergeKeepsAgreement(rows: map<Jid, ProtoChat>, db: Db, from: Jid, to: Jid)
    requires from != to
    ensures var after := MergeChat(db, from, to);
            var events := [ChatDeleted(from)] + PublishChat(after, to);
            && (Agrees(rows, db.chats) ==> Agrees(Fold(rows, events), after.chats))
            && (rows == Image(db.chats) ==> Fold(rows, events) == Image(after.chats))
  {
    var after := MergeChat(db, from, to);
    var without := db.(chats := db.chats - {from});
    FoldConcat(rows, [ChatDeleted(from)], PublishChat(after, to));
    FoldOne(rows, ChatDeleted(from));
    assert Image(without.chats) == Image(db.chats) - {from};
    TouchKeepsAgreement(rows - {from}, without, after, to);
  }

  lemma {:induction false} MergeLoopKeepsAgreement(rows: map<Jid, ProtoChat>, db: Db, alt: map<Jid, Jid>,
      failed: set<Jid>, scan: seq<Jid>)
    ensures var after, events := Merge.MergeAll(db, alt, failed, scan), MergeEvents(db, alt, failed, scan);
            && (Agrees(rows, db.chats) ==> Agrees(Fold(rows, events), after.chats))
            && (rows == Image(db.chats) ==> Fold(rows, events) == Image(after.chats))
  {
    if scan != [] {
      var before, jid := scan[..|scan| - 1], scan[|scan| - 1];
      MergeLoopKeepsAgreement(rows, db, alt, failed, before);
      var mid := Merge.MergeAll(db, alt, failed, before);
      var canonical := Merge.Canonical(alt, jid);
      FoldConcat(rows, MergeEvents(db, alt, failed, before), TurnEvents(mid, alt, failed, jid));
      if canonical != jid && jid !in failed {
        MergeKeepsAgreement(Fold(rows, MergeEvents(db, alt, failed, before)), mid, jid, canonical);
      }
    }
  }

  /** The one chat row that a step other than a merge may change, if it may change one. */
  function Touches(step: Step): (r: Option<Jid>)
    requires !step.MergeLids?
  {
    match step
    case SetFlags(jid, _, _, _) => Some(jid)
    case ReceiveMessage(m, _, _) => Some(m.row.chatJid)
    case InsertOutgoing(_) => None
    case StatusUpdate(_, _) => None
    case React(_, _) => None
    case FinishSend(_, jid, _, _, _, _, _) => Some(jid)
    case Delete(_, jid) => Some(jid)
    case OpenChat(jid) => Some(jid)
    case SyncHistory(c) => Some(c.jid)
    case BackfillName(jid, _) => Some(jid)
    case StartChat(jid, _) => Some(jid)
  }

  /** What holds of a step that publishes the one row it touched, or that changed no row. */
  ghost predicate PublishesWhatItTouches(db: Db, step: Step)
    requires !step.MergeLids?
  {
    var o := Perform(db, step);
    || (o.events == [] && o.db.chats == db.chats)
    || (Touches(step).Some? && ChangesOnly(db.chats, o.db.chats, Touches(step).value)
        && o.events == PublishChat(o.db, Touches(step).value))
  }

  lemma MessageStepPublishes(db: Db, step: Step)
    requires step.ReceiveMessage? || step.InsertOutgoing? || step.StatusUpdate? || step.React? || step.FinishSend?
    ensures PublishesWhatItTouches(db, step)
  {
  }

  lemma PreviewStepPublishes(db: Db, step: Step)
    requires step.Delete? || step.SyncHistory?
    ensures PublishesWhatItTouches(db, step)
  {
    if step.SyncHistory? {
      BatchKeepsChats(db.(chats := UpsertChat(db.chats, step.c.jid, step.c.chat)), step.c.batch);
    }
  }

  lemma ChatStepPublishes(db: Db, step: Step)
    requires step.SetFlags? || step.OpenChat? || step.BackfillName?
    ensures PublishesWhatItTouches(db, step)
  {
  }

  /** Every step but a merge and the start of a chat does. */
  lemma StepPublishesWhatItTouches(db: Db, step: Step)
    requires !step.MergeLids? && !step.StartChat?
    ensures PublishesWhatItTouches(db, step)
  {
    if step.SetFlags? || step.OpenChat? || step.BackfillName? {
      ChatStepPublishes(db, step);
    } else if step.Delete? || step.SyncHistory? {
      PreviewStepPublishes(db, step);
    } else {
      MessageStepPublishes(db, step);
    }
  }

  /** The one step that writes a row and publishes nothing: starting a chat that is not stored. */
  predicate Unannounced(db: Db, step: Step) {
    step.StartChat? && step.jid !in db.chats
  }

  /** One daemon step and its events; the whole table stays known unless a row is unannounced. */
  lemma StepKeepsAgreement(rows: map<Jid, ProtoChat>, db: Db, step: Step)
    requires Agrees(rows, db.chats)
    ensures var o := Perform(db, step);
            && Agrees(Fold(rows, o.events), o.db.chats)
            && (rows == Image(db.chats) ==> (Fold(rows, o.events) == Image(o.db.chats) <==> !Unannounced(db, step)))
  {
    match step
    case MergeLids(alt, failed, scan) =>
      MergeLoopKeepsAgreement(rows, db, alt, failed, scan);
    case StartChat(jid, _) =>
      var after := Perform(db, step).db;
      assert jid in Image(after.chats);
      assert jid !in db.chats ==> jid !in Image(db.chats);
    case _ => TouchingKeepsAgreement(rows, db, step);
  }

  lemma TouchingKeepsAgreement(rows: map<Jid, ProtoChat>, db: Db, step: Step)
    requires Agrees(rows, db.chats) && !step.MergeLids? && !step.StartChat?
    ensures var o := Perform(db, step);
            && Agrees(Fold(rows, o.events), o.db.chats)
            && (rows == Image(db.chats) ==> Fold(rows, o.events) == Image(o.db.chats))
  {
    StepPublishesWhatItTouches(db, step);
    var o := Perform(db, step);
    if o.events != [] || o.db.chats != db.chats {
      TouchKeepsAgreement(rows, db, o.db, Touches(step).value);
    }
  }

  function RunDb(db: Db, steps: seq<Step>): (r: Db) {
    if steps == [] then db else Perform(RunDb(db, steps[..|steps| - 1]), steps[|steps| - 1]).db
  }

  function RunRows(rows: map<Jid, ProtoChat>, db: Db, steps: seq<Step>): (r: map<Jid, ProtoChat>) {
    if steps == [] then rows
    else
      var before, last := steps[..|steps| - 1], steps[|steps| - 1];
      Fold(RunRows(rows, db, before), Perform(RunDb(db, before), last).events)
  }

  predicate AllAnnounced(db: Db, steps: seq<Step>) {
    steps != [] ==>
      AllAnnounced(db, steps[..|steps| - 1]) && !Unannounced(RunDb(db, steps[..|steps| - 1]), steps[|steps| - 1])
  }

  /**
   For every run of daemon steps: each row of the replica equals the stored row, field for
   field, and a client that knew the whole table still does unless a chat was started that was
   not stored then.
   */
  lemma {:induction false} ReplicaAgrees(rows: map<Jid, ProtoChat>, db: Db, steps: seq<Step>)
    requires Agrees(rows, db.chats)
    ensures Agrees(RunRows(rows, db, steps), RunDb(db, steps).chats)
    ensures rows == Image(db.chats) && AllAnnounced(db, steps) ==>
            RunRows(rows, db, steps) == Image(RunDb(db, steps).chats)
  {
    if steps != [] {
      var before, last := steps[..|steps| - 1], steps[|steps| - 1];
      ReplicaAgrees(rows, db, before);
      StepKeepsAgreement(RunRows(rows, db, before), RunDb(db, before), last);
    }
  }

  /**
   The same spelled out: at the end of any run a row of the client has each column of the stored
   row, and so has every update that a step publishes.
   */
  lemma ReplicaShowsColumns(rows: map<Jid, ProtoChat>, db: Db, steps: seq<Step>, j: Jid)
    requires Agrees(rows, db.chats) && j in RunRows(rows, db, steps)
    ensures j in RunDb(db, steps).chats
    ensures var row, c := RunRows(rows, db, steps)[j], RunDb(db, steps).chats[j];
            && row.jid == j && row.name == c.name && row.unread == c.unread
            && row.archived == c.archived && row.pinned == c.pinned
            && row.lastMessage == c.lastMessage && row.updatedAt == c.updatedAt
            && row.isGroup == c.isGroup && row.mutedUntil == c.mutedUntil
  {
    ReplicaAgrees(rows, db, steps);
  }

  lemma PublishedShowsRow(db: Db, step: Step, chat: ProtoChat)
    requires !step.MergeLids? && ChatUpdated(chat) in Perform(db, step).events
    ensures var after := Perform(db, step).db.chats; chat.jid in after && Shows(chat, chat.jid, after[chat.jid])
  {
    if !step.StartChat? {
      StepPublishesWhatItTouches(db, step);
    }
  }

  /** In the merge loop, at the turn that publishes it. */
  lemma MergePublishedShowsRow(db: Db, alt: map<Jid, Jid>, failed: set<Jid>, jid: Jid, chat: ProtoChat)
    requires ChatUpdated(chat) in TurnEvents(db, alt, failed, jid)
    ensures var after := Merge.MergeStep(db, alt, failed, jid).chats;
            chat.jid in after && Shows(chat, chat.jid, after[chat.jid])
  {
  }

  /** Every step also keeps the message ids unique and each attachment with its message. */
  lemma StepKeepsConsistent(db: Db, step: Step)
    requires Consistent(db)
    ensures Consistent(Perform(db, step).db)
  {
    match step
    case MergeLids(alt, failed, scan) => MergeAllKeepsConsistent(db, alt, failed, scan);
    case ReceiveMessage(m, _, _) => InsertKeepsConsistent(db, m);
    case InsertOutgoing(m) => InsertKeepsConsistent(db, m);
    case StatusUpdate(id, status) => StatusKeepsIds(db.messages, id, status);
    case React(id, reaction) => SameIdsConsistent(db.messages, SetReaction(db.messages, id, reaction));
    case FinishSend(id, _, _, _, ts, sender, _) =>
      var stamped := SetTimestamp(db.messages, id, ts);
      SameIdsConsistent(db.messages, stamped);
      StatusKeepsIds(stamped, id, StatusSent);
      var sent := Delivery.UpdateMessageStatus(stamped, id, StatusSent).0;
      SameIdsConsistent(sent, CorrectSender(sent, id, sender));
    case Delete(id, _) => DeleteKeepsConsistent(db, id);
    case SyncHistory(c) => SyncKeepsConsistent(db, c.jid, c.chat, c.batch);
    case _ =>
  }

  lemma {:induction false} RunsKeepConsistent(db: Db, steps: seq<Step>)
    requires Consistent(db)
    ensures Consistent(RunDb(db, steps))
  {
    if steps != [] {
      RunsKeepConsistent(db, steps[..|steps| - 1]);
      StepKeepsConsistent(RunDb(db, steps[..|steps| - 1]), steps[|steps| - 1]);
    }
  }

  lemma {:induction false} MergeAllKeepsConsistent(db: Db, alt: map<Jid, Jid>, failed: set<Jid>, scan: seq<Jid>)
    requires Consistent(db)
    ensures Consistent(Merge.MergeAll(db, alt, failed, scan))
  {
    if scan != [] {
      var jid := scan[|scan| - 1];
      MergeAllKeepsConsistent(db, alt, failed, scan[..|scan| - 1]);
      Merge.MergeKeepsConsistent(Merge.MergeAll(db, alt, failed, scan[..|scan| - 1]), jid, Merge.Canonical(alt, jid));
    }
  }

  lemma SameIdsConsistent(a: seq<Message>, b: seq<Message>)
    requires |a| == |b| && forall i :: 0 <= i < |a| ==> a[i].id == b[i].id
    ensures UniqueIds(a) ==> UniqueIds(b)
    ensures Ids(a) == Ids(b)
  {
    forall id ensures id in Ids(a) <==> id in Ids(b) {
      if id in Ids(a) {
        var i :| 0 <= i < |a| && a[i].id == id;
        assert b[i] in b;
      }
      if id in Ids(b) {
        var i :| 0 <= i < |b| && b[i].id == id;
        assert a[i] in a;
      }
    }
  }

  lemma StatusKeepsIds(messages: seq<Message>, id: Id, status: Status)
    ensures var after := Delivery.UpdateMessageStatus(messages, id, status).0;
            (UniqueIds(messages) ==> UniqueIds(after)) && Ids(after) == Ids(messages)
  {
    Delivery.UpdateKeepsRows(messages, id, status);
    SameIdsConsistent(messages, Delivery.UpdateMessageStatus(messages, id, status).0);
  }

  // ---------------------------------------------------------------- rows over time

  /** A row never loses its name or falls back in the chat order, whatever step runs. */
  ghost predicate NeverLoses(before: Chat, after: Chat) {
    before.updatedAt <= after.updatedAt && (before.name != "" ==> after.name != "")
  }

  lemma StepNeverLoses(db: Db, step: Step, j: Jid)
    requires step.MergeLids? ==> Merge.Stable(step.alt)
    requires j in db.chats && j in Perform(db, step).db.chats
    ensures NeverLoses(db.chats[j], Perform(db, step).db.chats[j])
  {
    match step
    case MergeLids(alt, failed, scan) => MergeNeverLoses(db, alt, failed, scan, j);
    case SyncHistory(c) => BatchKeepsChats(db.(chats := UpsertChat(db.chats, c.jid, c.chat)), c.batch);
    case _ =>
      StepFrames(db, step, j);
      if step.ReceiveMessage? || step.FinishSend? || step.BackfillName? {
        WriteNeverLoses(db, step, j);
      }
  }

  lemma WriteNeverLoses(db: Db, step: Step, j: Jid)
    requires j in db.chats && (step.ReceiveMessage? || step.FinishSend? || step.BackfillName?)
    ensures j in Perform(db, step).db.chats && NeverLoses(db.chats[j], Perform(db, step).db.chats[j])
  {
  }

  /** A row that is merged away is never written again, and one that stays only takes rows in. */
  lemma {:induction false} MergeNeverLoses(db: Db, alt: map<Jid, Jid>, failed: set<Jid>, scan: seq<Jid>, j: Jid)
    requires j in db.chats && Merge.Stable(alt)
    ensures var after := Merge.MergeAll(db, alt, failed, scan).chats;
            if j in after then NeverLoses(db.chats[j], after[j]) else Merge.Canonical(alt, j) != j
  {
    if scan != [] {
      MergeNeverLoses(db, alt, failed, scan[..|scan| - 1], j);
      Merge.CanonicalIdempotent(alt, scan[|scan| - 1]);
    }
  }

  // ---------------------------------------------------------------- activity

  /** Messages that move a chat up: live ones, and acknowledged sends. */
  predicate MovesUp(step: Step, j: Jid) {
    (step.ReceiveMessage? && step.m.row.chatJid == j) || (step.FinishSend? && step.jid == j)
  }

  function TimeOf(step: Step): (r: int)
    requires step.ReceiveMessage? || step.FinishSend?
  {
    if step.ReceiveMessage? then step.m.row.timestamp else step.ts
  }

  /** The chat is stored after each of the steps. */
  predicate StaysStored(db: Db, steps: seq<Step>, j: Jid) {
    steps != [] ==> StaysStored(db, steps[..|steps| - 1], j) && j in RunDb(db, steps).chats
  }

  ghost predicate StableMerges(steps: seq<Step>) {
    forall s :: s in steps && s.MergeLids? ==> Merge.Stable(s.alt)
  }

  lemma MessageMovesUp(db: Db, step: Step, j: Jid)
    requires MovesUp(step, j)
    ensures var after := Perform(db, step).db.chats;
            && j in after && TimeOf(step) <= after[j].updatedAt
            && (j in db.chats ==> after[j].updatedAt == Max(db.chats[j].updatedAt, TimeOf(step)))
  {
  }

  lemma {:induction false} NeverFallsBack(db: Db, steps: seq<Step>, j: Jid)
    requires j in db.chats && StaysStored(db, steps, j) && StableMerges(steps)
    ensures j in RunDb(db, steps).chats && db.chats[j].updatedAt <= RunDb(db, steps).chats[j].updatedAt
  {
    if steps != [] {
      InitAndLast(steps);
      NeverFallsBack(db, steps[..|steps| - 1], j);
      StepNeverLoses(RunDb(db, steps[..|steps| - 1]), steps[|steps| - 1], j);
    }
  }

  /** Every message of a chat is at most as late as the chat's activity ever after, while it is stored. */
  lemma MessagesNeverOutrunActivity(db: Db, step: Step, more: seq<Step>, j: Jid)
    requires MovesUp(step, j) && StaysStored(Perform(db, step).db, more, j) && StableMerges(more)
    ensures j in RunDb(Perform(db, step).db, more).chats
    ensures TimeOf(step) <= RunDb(Perform(db, step).db, more).chats[j].updatedAt
  {
    MessageMovesUp(db, step, j);
    NeverFallsBack(Perform(db, step).db, more, j);
  }

  /** The latest of a first time and the times of the messages of a run. */
  function Latest(first: int, steps: seq<Step>, j: Jid): (r: int)
    ensures first <= r
  {
    if steps == [] then first
    else
      var before, last := Latest(first, steps[..|steps| - 1], j), steps[|steps| - 1];
      if MovesUp(last, j) && TimeOf(last) > before then TimeOf(last) else before
  }

  /** Between merges and syncs a chat's activity is exactly that. */
  lemma {:induction false} ActivityIsLatestMessage(db: Db, steps: seq<Step>, j: Jid)
    requires j in db.chats && forall s :: s in steps ==> !s.MergeLids? && !(s.SyncHistory? && s.c.jid == j)
    ensures j in RunDb(db, steps).chats
    ensures RunDb(db, steps).chats[j].updatedAt == Latest(db.chats[j].updatedAt, steps, j)
  {
    if steps != [] {
      InitAndLast(steps);
      ActivityIsLatestMessage(db, steps[..|steps| - 1], j);
      StepFrames(RunDb(db, steps[..|steps| - 1]), steps[|steps| - 1], j);
      if MovesUp(steps[|steps| - 1], j) {
        MessageMovesUp(RunDb(db, steps[..|steps| - 1]), steps[|steps| - 1], j);
      }
    }
  }

  /** Which steps, apart from merges and the sync of the chat itself, may write which column of a chat. */
  ghost predicate Framed(step: Step, j: Jid, a: Chat, b: Chat) {
    && (a.archived != b.archived || a.pinned != b.pinned || a.mutedUntil != b.mutedUntil ==>
          step.SetFlags? && step.jid == j)
    && (a.updatedAt != b.updatedAt || a.isGroup != b.isGroup ==> MovesUp(step, j))
    && (a.name != b.name ==> (MovesUp(step, j) && a.name == "") || (step.BackfillName? && step.jid == j))
    && (a.unread != b.unread ==> IsDelivery(step, j) || step == OpenChat(j))
    && (a.lastMessage != b.lastMessage ==> MovesUp(step, j) || (step.Delete? && step.jid == j))
  }

  lemma MessageStepFrames(db: Db, step: Step, j: Jid)
    requires j in db.chats
    requires step.ReceiveMessage? || step.InsertOutgoing? || step.StatusUpdate? || step.React? || step.FinishSend?
    ensures j in Perform(db, step).db.chats && Framed(step, j, db.chats[j], Perform(db, step).db.chats[j])
  {
  }

  lemma PreviewStepFrames(db: Db, step: Step, j: Jid)
    requires j in db.chats && (step.Delete? || (step.SyncHistory? && step.c.jid != j))
    ensures j in Perform(db, step).db.chats && Framed(step, j, db.chats[j], Perform(db, step).db.chats[j])
  {
    if step.SyncHistory? {
      BatchKeepsChats(db.(chats := UpsertChat(db.chats, step.c.jid, step.c.chat)), step.c.batch);
    }
  }

  lemma FlagStepFrames(db: Db, step: Step, j: Jid)
    requires j in db.chats && step.SetFlags?
    ensures j in Perform(db, step).db.chats && Framed(step, j, db.chats[j], Perform(db, step).db.chats[j])
  {
    if step.jid == j {
      FlagsAreSet(db.chats, j, step.pinned, step.archived, step.mutedUntil);
    }
  }

  lemma SmallStepFrames(db: Db, step: Step, j: Jid)
    requires j in db.chats && (step.OpenChat? || step.BackfillName? || step.StartChat?)
    ensures j in Perform(db, step).db.chats && Framed(step, j, db.chats[j], Perform(db, step).db.chats[j])
  {
  }

  lemma StepFrames(db: Db, step: Step, j: Jid)
    requires j in db.chats && !step.MergeLids? && !(step.SyncHistory? && step.c.jid == j)
    ensures j in Perform(db, step).db.chats && Framed(step, j, db.chats[j], Perform(db, step).db.chats[j])
  {
    if step.SetFlags? {
      FlagStepFrames(db, step, j);
    } else if step.OpenChat? || step.BackfillName? || step.StartChat? {
      SmallStepFrames(db, step, j);
    } else if step.Delete? || step.SyncHistory? {
      PreviewStepFrames(db, step, j);
    } else {
      MessageStepFrames(db, step, j);
    }
  }

  /** The first live message of an unknown chat. */
  lemma FirstMessageOpensChat(db: Db, m: Incoming, name: string, isGroup: bool)
    requires m.row.chatJid !in db.chats
    ensures var j, after := m.row.chatJid, Perform(db, ReceiveMessage(m, name, isGroup)).db.chats;
            && j in after && after.Keys == db.chats.Keys + {j}
            && after[j].name == name && after[j].updatedAt == m.row.timestamp && after[j].isGroup == isGroup
            && after[j].unread == (if m.row.outgoing then 0 else 1)
            && after[j].lastMessage == m.row.body
            && !after[j].archived && !after[j].pinned && after[j].mutedUntil == 0
  {
    TouchOfNewChat(db.chats, m.row.chatJid, name, m.row.body, m.row.timestamp, isGroup, !m.row.outgoing);
  }

  /** The small steps: opening a chat, naming it, starting one. */
  lemma SmallSteps(db: Db, j: Jid, name: string)
    ensures var after := Perform(db, OpenChat(j)).db.chats;
            after.Keys == db.chats.Keys && (j in after && db.chats[j].unread >= 0 ==> after[j].unread == 0)
    ensures var after := Perform(db, BackfillName(j, name)).db.chats;
            && after.Keys == db.chats.Keys
            && (j in after ==> after[j].name == if name == "" || name == j.user then db.chats[j].name else name)
    ensures var after := Perform(db, StartChat(j, name)).db.chats;
            && j in after && after.Keys == db.chats.Keys + {j}
            && (j in db.chats ==> after == db.chats)
            && (j !in db.chats ==>
                  && after[j].name == name && after[j].unread == 0 && !after[j].archived && !after[j].pinned
                  && after[j].lastMessage == "" && !after[j].isGroup && after[j].mutedUntil == 0)
  {
  }

  /**
   An acknowledged send gives its message the server's time, the identity it was sent with, and
   at least the status sent; it changes nothing else of it, and no other message.
   */
  lemma SendWritesMessage(
      db: Db, m: Message, jid: Jid, name: string, preview: string, ts: int, sender: string, isGroup: bool, i: nat)
    requires Consistent(db) && m in db.messages && i < |db.messages|
    ensures var after := Perform(db, FinishSend(m.id, jid, name, preview, ts, sender, isGroup)).db.messages;
            && |after| == |db.messages|
            && (db.messages[i].id != m.id ==> after[i] == db.messages[i])
            && (db.messages[i].id == m.id ==>
                  && after[i] == m.(timestamp := ts, sender := after[i].sender, status := after[i].status)
                  && after[i].sender == (if sender == "" then m.sender else sender)
                  && Delivery.Ranked(after[i].status)
                  && after[i].status == Delivery.Final(m.status, [StatusSent]))
  {
    var stamped := SetTimestamp(db.messages, m.id, ts);
    var k :| 0 <= k < |db.messages| && db.messages[k] == m;
    StampedRows(db.messages, m.id, ts);
    SentRow(stamped, k, i);
  }

  lemma StampedRows(messages: seq<Message>, id: Id, ts: int)
    requires UniqueIds(messages)
    ensures var stamped := SetTimestamp(messages, id, ts);
            && |stamped| == |messages| && UniqueIds(stamped)
            && forall i :: 0 <= i < |messages| ==>
                 && stamped[i] == messages[i].(timestamp := stamped[i].timestamp)
                 && stamped[i].timestamp == if messages[i].id == id then ts else messages[i].timestamp
  {
  }

  lemma SentRow(messages: seq<Message>, k: nat, i: nat)
    requires UniqueIds(messages) && k < |messages| && i < |messages|
    ensures var after := Delivery.UpdateMessageStatus(messages, messages[k].id, StatusSent).0;
            && |after| == |messages|
            && (i != k ==> after[i] == messages[i])
            && (i == k ==>
                  && after[k] == messages[k].(status := after[k].status) && Delivery.Ranked(after[k].status)
                  && after[k].status == Delivery.Final(messages[k].status, [StatusSent]))
  {
    var id, status := messages[k].id, messages[k].status;
    StatusOfRow(messages, k);
    Delivery.SetStatusRows(messages, id, StatusSent);
    assert [StatusSent][..0] == [] && Delivery.Final(status, []) == status;
    assert i != k ==> messages[i].id != id;
  }

  /** With unique ids the status of a row is what the query for its id answers. */
  lemma {:induction false} StatusOfRow(messages: seq<Message>, k: nat)
    requires k < |messages| && UniqueIds(messages)
    ensures Delivery.StatusOf(messages, messages[k].id) == Some(messages[k].status)
  {
    if k < |messages| - 1 {
      StatusOfRow(messages[..|messages| - 1], k);
    }
  }

  // ---------------------------------------------------------------- badges

  predicate IsDelivery(step: Step, j: Jid) {
    step.ReceiveMessage? && step.m.row.chatJid == j && !step.m.row.outgoing
  }

  function Deliveries(steps: seq<Step>, j: Jid): (r: nat) {
    if steps == [] then 0
    else Deliveries(steps[..|steps| - 1], j) + if IsDelivery(steps[|steps| - 1], j) then 1 else 0
  }

  /** Steps that write an unread count of their own: merges, history sync, opening the chat. */
  predicate SetsUnread(step: Step, j: Jid) {
    step.MergeLids? || step == OpenChat(j) || (step.SyncHistory? && step.c.jid == j)
  }

  /** Between such steps the badge counts the incoming messages delivered since. */
  lemma {:induction false} UnreadCountsDeliveries(db: Db, steps: seq<Step>, j: Jid)
    requires j in db.chats && forall s :: s in steps ==> !SetsUnread(s, j)
    ensures j in RunDb(db, steps).chats
    ensures RunDb(db, steps).chats[j].unread == db.chats[j].unread + Deliveries(steps, j)
  {
    if steps != [] {
      var before, last := steps[..|steps| - 1], steps[|steps| - 1];
      assert last in steps && forall s :: s in before ==> s in steps;
      UnreadCountsDeliveries(db, before, j);
      StepUnread(RunDb(db, before), last, j);
    }
  }

  lemma StepUnread(db: Db, step: Step, j: Jid)
    requires j in db.chats && !SetsUnread(step, j)
    ensures j in Perform(db, step).db.chats
    ensures Perform(db, step).db.chats[j].unread == db.chats[j].unread + if IsDelivery(step, j) then 1 else 0
  {
    if step.SyncHistory? {
      BatchKeepsChats(db.(chats := UpsertChat(db.chats, step.c.jid, step.c.chat)), step.c.batch);
    }
  }

  /**
   It counts deliveries, not messages. One delivery into a stored chat raises the badge by the
   number of rows it stores exactly when its id is new.
   */
  lemma DeliveryCountsStoredIff(db: Db, step: Step, j: Jid)
    requires j in db.chats && IsDelivery(step, j)
    ensures var after := Perform(db, step).db;
            && j in after.chats
            && (after.chats[j].unread - db.chats[j].unread == |after.messages| - |db.messages| <==> !Repeats(db, step))
  {
  }

  /** A delivery of a message that is stored already. */
  predicate Repeats(db: Db, step: Step) {
    step.ReceiveMessage? && step.m.row.id in Ids(db.messages)
  }

  /** The rows that the incoming deliveries of a run have added for j. */
  function StoredDeliveries(db: Db, steps: seq<Step>, j: Jid): (r: int) {
    if steps == [] then 0
    else
      var before, last := RunDb(db, steps[..|steps| - 1]), steps[|steps| - 1];
      StoredDeliveries(db, steps[..|steps| - 1], j)
      + if IsDelivery(last, j) then |Perform(before, last).db.messages| - |before.messages| else 0
  }

  function RepeatedDeliveries(db: Db, steps: seq<Step>, j: Jid): (r: nat) {
    if steps == [] then 0
    else
      var before, last := RunDb(db, steps[..|steps| - 1]), steps[|steps| - 1];
      RepeatedDeliveries(db, steps[..|steps| - 1], j) + if IsDelivery(last, j) && Repeats(before, last) then 1 else 0
  }

  /** No incoming message for j was delivered while it was stored. */
  predicate NoneRepeated(db: Db, steps: seq<Step>, j: Jid) {
    steps != [] ==>
      var before, last := steps[..|steps| - 1], steps[|steps| - 1];
      NoneRepeated(db, before, j) && !(IsDelivery(last, j) && Repeats(RunDb(db, before), last))
  }

  lemma {:induction false} RepeatsCounted(db: Db, steps: seq<Step>, j: Jid)
    ensures Deliveries(steps, j) == StoredDeliveries(db, steps, j) + RepeatedDeliveries(db, steps, j)
    ensures RepeatedDeliveries(db, steps, j) == 0 <==> NoneRepeated(db, steps, j)
  {
    if steps != [] {
      RepeatsCounted(db, steps[..|steps| - 1], j);
    }
  }

  /**
   For every run without merge, sync or opening of the chat: the badge grows by the number of
   messages its deliveries stored exactly when none of them was a redelivery.
   */
  lemma BadgeCountsMessagesIff(db: Db, steps: seq<Step>, j: Jid)
    requires j in db.chats && forall s :: s in steps ==> !SetsUnread(s, j)
    ensures j in RunDb(db, steps).chats
    ensures RunDb(db, steps).chats[j].unread - db.chats[j].unread == StoredDeliveries(db, steps, j) <==>
            NoneRepeated(db, steps, j)
  {
    UnreadCountsDeliveries(db, steps, j);
    RepeatsCounted(db, steps, j);
  }

  // ---------------------------------------------------------------- deletes

  /** The preview of a chat is the body of its newest message, if it has any. */
  predicate PreviewCurrent(db: Db, j: Jid) {
    j in db.chats && (Newest(db.messages, j).Some? ==> db.chats[j].lastMessage == Newest(db.messages, j).value.body)
  }

  /**
   A delete keeps the preview of chat j current exactly when the JID that came with it is j, or
   the message was not the newest of j, or it was the last, or the next one has the same body.
   DeleteForMe and Revoke events carry a JID that is not canonicalised, so for a chat that is
   known under a LID and stored under its phone JID the first of these fails.
   */
  lemma DeleteKeepsPreviewIff(db: Db, id: Id, jid: Jid, j: Jid)
    requires PreviewCurrent(db, j) && id in Ids(db.messages)
    ensures var after, newest := Perform(db, Delete(id, jid)).db, Newest(db.messages, j);
            PreviewCurrent(after, j) <==>
              || jid == j || newest.None? || newest.value.id != id
              || Newest(after.messages, j).None? || Newest(after.messages, j).value.body == newest.value.body
  {
    NewestIsNewest(db.messages, j);
    RemovedMembers(db.messages, id);
    NewestIsNewest(Removed(db.messages, id), j);
    assert Perform(db, Delete(id, jid)).db.messages == Removed(db.messages, id);
    if Newest(db.messages, j).Some? && Newest(db.messages, j).value.id != id {
      NewestOutlivesOthers(db.messages, id, j);
    }
  }

  /** Such a delete: the newest of two messages goes, and the preview still shows it. */
  lemma StalePreview() returns (db: Db, id: Id, jid: Jid, j: Jid)
    ensures Consistent(db) && PreviewCurrent(db, j) && id in Ids(db.messages)
    ensures !PreviewCurrent(Perform(db, Delete(id, jid)).db, j)
    ensures exists alt :: Merge.Stable(alt) && Merge.Canonical(alt, jid) == j
  {
    j, jid := Jid("49", 0, DefaultUserServer), Jid("1", 0, HiddenUserServer);
    var alt := map[jid := j];
    assert Merge.Canonical(alt, jid) == j && Merge.Stable(alt);
    var older := Message(Id("1"), j, "", "", "first", "", 1, false, StatusRead, false, "", None);
    var newer := Message(Id("2"), j, "", "", "second", "", 2, false, StatusRead, false, "", None);
    id := newer.id;
    db := Db(map[j := Chat("", 0, false, false, "second", 2, false, 0)], [older, newer], map[]);
    TwoMessages(older, newer, j);
    DeleteKeepsPreviewIff(db, id, jid, j);
  }

  lemma TwoMessages(older: Message, newer: Message, j: Jid)
    requires older.chatJid == newer.chatJid == j && older.timestamp < newer.timestamp && older.id != newer.id
    ensures Newest([older, newer], j) == Some(newer) && Newest([older], j) == Some(older)
    ensures Removed([older, newer], newer.id) == [older] && newer.id in Ids([older, newer])
  {
    var both := [older, newer];
    assert both[1] in both && both[..1] == [older] && [older][..0] == [];
    assert Newest([], j) == None && Newest([older], j) == Some(older);
    assert Removed([], newer.id) == [] && Removed([older], newer.id) == [older];
  }

  // ---------------------------------------------------------------- previews and flags

  /**
   A live message becomes the preview of its chat whatever its age. That is right exactly when it
   is new and newer than all of the chat, or there is none, or the newest has the same body.
   */
  lemma MessageKeepsPreviewIff(db: Db, m: Incoming, name: string, isGroup: bool)
    ensures var after, newest := Perform(db, ReceiveMessage(m, name, isGroup)).db, Newest(db.messages, m.row.chatJid);
            PreviewCurrent(after, m.row.chatJid) <==>
              || newest.None?
              || (m.row.id !in Ids(db.messages) && newest.value.timestamp < m.row.timestamp)
              || newest.value.body == m.row.body
  {
    assert (db.messages + [m.row])[..|db.messages|] == db.messages;
  }

  /** Which message is the newest of a chat depends on chats and timestamps alone. */
  lemma {:induction false} NewestByTime(a: seq<Message>, b: seq<Message>, jid: Jid)
    requires |a| == |b|
    requires forall i :: 0 <= i < |a| ==> a[i].chatJid == b[i].chatJid && a[i].timestamp == b[i].timestamp
    requires forall i :: 0 <= i < |a| ==> a[i].body == b[i].body
    ensures Newest(a, jid).None? <==> Newest(b, jid).None?
    ensures Newest(a, jid).Some? ==> Newest(a, jid).value.timestamp == Newest(b, jid).value.timestamp
    ensures Newest(a, jid).Some? ==> Newest(a, jid).value.body == Newest(b, jid).value.body
  {
    if a != [] {
      NewestByTime(a[..|a| - 1], b[..|b| - 1], jid);
    }
  }

  /**
   So does a message whose send was acknowledged. With the server's timestamp it is the newest
   of its chat, or the newest has the same body, or the preview is wrong.
   */
  lemma SendKeepsPreviewIff(
      db: Db, m: Message, jid: Jid, name: string, ts: int, sender: string, isGroup: bool)
    requires Consistent(db) && m in db.messages && m.chatJid == jid
    ensures var stamped := SetTimestamp(db.messages, m.id, ts);
            var newest := Newest(stamped, jid);
            && newest.Some?
            && (PreviewCurrent(Perform(db, FinishSend(m.id, jid, name, m.body, ts, sender, isGroup)).db, jid) <==>
                  newest.value.id == m.id || newest.value.body == m.body)
  {
    var stamped := SetTimestamp(db.messages, m.id, ts);
    var i :| 0 <= i < |db.messages| && db.messages[i] == m;
    assert stamped[i] in stamped;
    NewestIsNewest(stamped, jid);
    NewestAfterSend(db, m.id, jid, name, m.body, ts, sender, isGroup);
    StampedBody(db.messages, m, ts, Newest(stamped, jid).value);
  }

  lemma NewestAfterSend(
      db: Db, id: Id, jid: Jid, name: string, preview: string, ts: int, sender: string, isGroup: bool)
    ensures var after := Perform(db, FinishSend(id, jid, name, preview, ts, sender, isGroup)).db;
            var before, now := Newest(SetTimestamp(db.messages, id, ts), jid), Newest(after.messages, jid);
            && jid in after.chats && after.chats[jid].lastMessage == preview
            && (before.None? <==> now.None?)
            && (before.Some? && now.Some? ==> now.value.body == before.value.body)
  {
    SendKeepsNewest(SetTimestamp(db.messages, id, ts), id, sender, jid);
  }

  lemma SendKeepsNewest(messages: seq<Message>, id: Id, sender: string, jid: Jid)
    ensures var sent := CorrectSender(Delivery.UpdateMessageStatus(messages, id, StatusSent).0, id, sender);
            var before, now := Newest(messages, jid), Newest(sent, jid);
            && (before.None? <==> now.None?)
            && (before.Some? && now.Some? ==> now.value.body == before.value.body)
  {
    Delivery.UpdateKeepsRows(messages, id, StatusSent);
    var marked := Delivery.UpdateMessageStatus(messages, id, StatusSent).0;
    NewestByTime(messages, CorrectSender(marked, id, sender), jid);
  }

  lemma StampedBody(messages: seq<Message>, m: Message, ts: int, n: Message)
    requires UniqueIds(messages) && m in messages && n in SetTimestamp(messages, m.id, ts)
    ensures n.id == m.id ==> n.body == m.body
  {
    var i :| 0 <= i < |messages| && messages[i] == m;
    var k :| 0 <= k < |messages| && SetTimestamp(messages, m.id, ts)[k] == n;
  }

  /**
   A pin, archive or mute made on another device comes with a JID that is not canonicalised. It
   reaches the chat exactly when that JID is the chat's own, or it would not have changed the
   chat; and it is lost altogether when no row is stored under that JID either.
   */
  lemma FlagsReachChatIff(
      db: Db, alt: map<Jid, Jid>, jid: Jid, pinned: Option<bool>, archived: Option<bool>, mutedUntil: Option<int>)
    requires Merge.Canonical(alt, jid) in db.chats
    ensures var chat := Merge.Canonical(alt, jid);
            var o, wanted := Perform(db, SetFlags(jid, pinned, archived, mutedUntil)),
                             SetChatFlags(db.chats, chat, pinned, archived, mutedUntil).0;
            && chat in o.db.chats && chat in wanted
            && (o.db.chats[chat] == wanted[chat] <==> jid == chat || wanted[chat] == db.chats[chat])
            && (jid != chat && jid !in db.chats ==> o == Outcome(db, []))
  {
  }

  // ---------------------------------------------------------------- searches

  /**
   A rebuild during a search keeps the replica in step exactly when every search result for a
   known chat is the stored row; results are a snapshot, so they need not be.
   */
  lemma SearchRebuildAgreesIff(rows: map<Jid, ProtoChat>, chats: map<Jid, Chat>, results: seq<ProtoChat>)
    requires Agrees(rows, chats) && Sidebar.DistinctJids(results)
    ensures Agrees(Sidebar.SearchMerge(rows, results), chats) <==>
              forall r :: r in results && r.jid in rows ==> Shows(r, r.jid, chats[r.jid])
  {
    var merged := Sidebar.SearchMerge(rows, results);
    Sidebar.SearchMergeKeys(rows, results);
    Sidebar.SearchRebuildKeepsRowsIff(rows, results);
    if Agrees(merged, chats) {
      assert merged == rows;
    }
  }

  /**
   How that goes wrong: search, open a chat with unread messages, and the next rebuild of the
   still open search brings the unread badge back, although the store and the event say read.
   */
  lemma SearchBringsBadgeBack(rows: map<Jid, ProtoChat>, db: Db, j: Jid)
    requires Agrees(rows, db.chats) && j in rows && rows[j].unread > 0
    ensures var o := Perform(db, OpenChat(j));
            var informed := Fold(rows, o.events);
            var merged := Sidebar.SearchMerge(informed, [rows[j]]);
            && Agrees(informed, o.db.chats) && j in informed && informed[j].unread == 0
            && j in merged && merged[j].unread > 0
            && !Agrees(merged, o.db.chats)
  {
    var o := Perform(db, OpenChat(j));
    StepKeepsAgreement(rows, db, OpenChat(j));
    FoldOne(rows, ChatUpdated(ToProtoChat(j, o.db.chats[j])));
    assert [rows[j]][..0] == [];
    assert Sidebar.SearchMerge(Fold(rows, o.events), []) == Fold(rows, o.events);
  }
}
