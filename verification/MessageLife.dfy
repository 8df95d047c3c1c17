/**
 One message over a whole run. The daemon's steps rewrite a table of messages; seen from a single
 id, every run is the small story told here, whatever happens to the other messages.
 */
module MessageLife {
  import opened Records
  import opened Tables
  import opened Wrappers
  import opened Replica
  import Merge
  import Delivery

  /** SELECT ... FROM messages WHERE id = ?. */
  function RowOf(messages: seq<Message>, id: Id): (r: Option<Message>)
    ensures r.None? <==> id !in Ids(messages)
    ensures r.Some? ==> r.value in messages && r.value.id == id
  {
    if messages == [] then None
    else
      var before, last := messages[..|messages| - 1], messages[|messages| - 1];
      assert messages == before + [last];
      if last.id == id then Some(last) else RowOf(before, id)
  }

  /** Where the merge loop takes a message of this chat, each turn after the one before it. */
  function Home(jid: Jid, alt: map<Jid, Jid>, failed: set<Jid>, scan: seq<Jid>): (r: Jid) {
    if scan == [] then jid
    else
      var home, turn := Home(jid, alt, failed, scan[..|scan| - 1]), scan[|scan| - 1];
      if home == turn && turn !in failed then Merge.Canonical(alt, turn) else home
  }

  /** The first row of a batch under an id. */
  function FirstIn(batch: seq<Incoming>, id: Id): (r: Option<Message>) {
    if batch == [] then None
    else
      var first, last := FirstIn(batch[..|batch| - 1], id), batch[|batch| - 1].row;
      if first.None? && last.id == id then Some(last) else first
  }

  /** What a step does to the message with this id. Only a step that names it, or merges, does anything. */
  function Next(row: Option<Message>, id: Id, step: Step): (r: Option<Message>) {
    match row
    case None =>
      if (step.ReceiveMessage? || step.InsertOutgoing?) && step.m.row.id == id then Some(step.m.row)
      else if step.SyncHistory? then FirstIn(step.c.batch, id)
      else None
    case Some(m) =>
      if step.MergeLids? then Some(m.(chatJid := Home(m.chatJid, step.alt, step.failed, step.scan)))
      else if step.StatusUpdate? && step.id == id then Some(m.(status := Delivery.Advance(m.status, step.status)))
      else if step.React? && step.id == id then Some(m.(reaction := step.reaction))
      else if step.FinishSend? && step.id == id then
        Some(Sent(m, step.ts, step.sender))
      else if step.Delete? && step.id == id then None
      else row
  }

  /** A message whose send was acknowledged. */
  function Sent(m: Message, ts: int, sender: string): (r: Message) {
    var m := m.(timestamp := ts, status := Delivery.Advance(m.status, StatusSent));
    if sender == "" then m else m.(sender := sender)
  }

  function Life(row: Option<Message>, id: Id, steps: seq<Step>): (r: Option<Message>) {
    if steps == [] then row
    else Next(Life(row, id, steps[..|steps| - 1]), id, steps[|steps| - 1])
  }

  /** After any run of the daemon's steps, on any table, the row under an id is what its own life left. */
  lemma {:induction false} MessageLivesItsOwnLife(db: Db, steps: seq<Step>, id: Id)
    ensures RowOf(RunDb(db, steps).messages, id) == Life(RowOf(db.messages, id), id, steps)
  {
    if steps != [] {
      var before, last := steps[..|steps| - 1], steps[|steps| - 1];
      MessageLivesItsOwnLife(db, before, id);
      StepOnRow(RunDb(db, before), last, id);
    }
  }

  lemma StepOnRow(db: Db, step: Step, id: Id)
    ensures RowOf(Perform(db, step).db.messages, id) == Next(RowOf(db.messages, id), id, step)
  {
    match step
    case MergeLids(alt, failed, scan) =>
      MergeOnRow(db, alt, failed, scan, id);
    case ReceiveMessage(m, name, isGroup) =>
      InsertOnRow(db.messages, m.row, id);
    case InsertOutgoing(m) =>
      InsertOnRow(db.messages, m.row, id);
    case SyncHistory(c) =>
      BatchOnRow(db.(chats := UpsertChat(db.chats, c.jid, c.chat)), c.batch, id);
    case _ =>
      if step.SetFlags? || step.OpenChat? || step.BackfillName? || step.StartChat? {
        ChatStepOnRow(db, step, id);
      } else {
        RewriteOnRow(db, step, id);
      }
  }

  lemma RewriteOnRow(db: Db, step: Step, id: Id)
    requires step.StatusUpdate? || step.React? || step.FinishSend? || step.Delete?
    ensures RowOf(Perform(db, step).db.messages, id) == Next(RowOf(db.messages, id), id, step)
  {
    match step
    case StatusUpdate(i, status) =>
      StatusOnRow(db.messages, i, status, id);
    case React(i, reaction) =>
      var _ := RowAt(db.messages, SetReaction(db.messages, i, reaction), id);
    case FinishSend(i, jid, name, preview, ts, sender, isGroup) =>
      SendOnRow(db.messages, i, ts, sender, id);
    case Delete(i, jid) =>
      DeleteOnRow(db.messages, i, id);
  }

  lemma ChatStepOnRow(db: Db, step: Step, id: Id)
    requires step.SetFlags? || step.OpenChat? || step.BackfillName? || step.StartChat?
    ensures RowOf(Perform(db, step).db.messages, id) == Next(RowOf(db.messages, id), id, step)
  {
  }

  lemma InsertOnRow(messages: seq<Message>, row: Message, id: Id)
    ensures RowOf(InsertRow(messages, row), id)
         == if row.id == id && RowOf(messages, id).None? then Some(row) else RowOf(messages, id)
  {
    assert (messages + [row])[..|messages|] == messages;
  }

  lemma {:induction false} BatchOnRow(db: Db, batch: seq<Incoming>, id: Id)
    ensures RowOf(InsertBatch(db, batch).messages, id)
         == if RowOf(db.messages, id).None? then FirstIn(batch, id) else RowOf(db.messages, id)
  {
    if batch != [] {
      var before, last := batch[..|batch| - 1], batch[|batch| - 1];
      BatchOnRow(db, before, id);
      var mid := InsertBatch(db, before).messages;
      assert InsertBatch(db, batch).messages == InsertRow(mid, last.row);
      InsertOnRow(mid, last.row, id);
    }
  }

  /** A statement that rewrites rows in place, keeping their ids, rewrites the row under an id. */
  lemma {:induction false} RowAt(a: seq<Message>, b: seq<Message>, id: Id) returns (i: nat)
    requires |a| == |b| && forall k :: 0 <= k < |a| ==> a[k].id == b[k].id
    ensures RowOf(a, id).None? <==> RowOf(b, id).None?
    ensures RowOf(a, id).Some? ==> i < |a| && RowOf(a, id) == Some(a[i]) && RowOf(b, id) == Some(b[i])
  {
    i := 0;
    if a != [] {
      if a[|a| - 1].id == id {
        i := |a| - 1;
      } else {
        i := RowAt(a[..|a| - 1], b[..|b| - 1], id);
      }
    }
  }

  lemma SendOnRow(messages: seq<Message>, i: Id, ts: int, sender: string, id: Id)
    ensures var sent := Delivery.UpdateMessageStatus(SetTimestamp(messages, i, ts), i, StatusSent).0;
            RowOf(CorrectSender(sent, i, sender), id) ==
              match RowOf(messages, id)
              case None => None
              case Some(m) => Some(if i == id then Sent(m, ts, sender) else m)
  {
    var stamped := SetTimestamp(messages, i, ts);
    var sent := Delivery.UpdateMessageStatus(stamped, i, StatusSent).0;
    var _ := RowAt(messages, stamped, id);
    StatusOnRow(stamped, i, StatusSent, id);
    var _ := RowAt(sent, CorrectSender(sent, i, sender), id);
  }

  lemma StatusOnRow(messages: seq<Message>, i: Id, status: Status, id: Id)
    ensures RowOf(Delivery.UpdateMessageStatus(messages, i, status).0, id)
         == match RowOf(messages, id)
            case None => None
            case Some(m) => Some(if i == id then m.(status := Delivery.Advance(m.status, status)) else m)
  {
    StatusOfRowOf(messages, i);
    Delivery.SetStatusRows(messages, i, status);
    var _ := RowAt(messages, Delivery.SetStatus(messages, i, status), id);
  }

  lemma {:induction false} StatusOfRowOf(messages: seq<Message>, id: Id)
    ensures Delivery.StatusOf(messages, id)
         == if RowOf(messages, id).Some? then Some(RowOf(messages, id).value.status) else None
  {
    if messages != [] {
      StatusOfRowOf(messages[..|messages| - 1], id);
    }
  }

  lemma {:induction false} DeleteOnRow(messages: seq<Message>, i: Id, id: Id)
    ensures RowOf(Removed(messages, i), id) == if i == id then None else RowOf(messages, id)
  {
    if messages != [] {
      var before, last := messages[..|messages| - 1], messages[|messages| - 1];
      DeleteOnRow(before, i, id);
      assert (Removed(before, i) + [last])[..|Removed(before, i)|] == Removed(before, i);
    }
  }

  lemma {:induction false} MergeOnRow(db: Db, alt: map<Jid, Jid>, failed: set<Jid>, scan: seq<Jid>, id: Id)
    ensures RowOf(Merge.MergeAll(db, alt, failed, scan).messages, id)
         == match RowOf(db.messages, id)
            case None => None
            case Some(m) => Some(m.(chatJid := Home(m.chatJid, alt, failed, scan)))
  {
    if scan != [] {
      var before, turn := scan[..|scan| - 1], scan[|scan| - 1];
      MergeOnRow(db, alt, failed, before, id);
      var mid := Merge.MergeAll(db, alt, failed, before).messages;
      var _ := RowAt(mid, MoveMessages(mid, turn, Merge.Canonical(alt, turn)), id);
    }
  }

  // ---------------------------------------------------------------- what follows

  predicate NeverDeleted(steps: seq<Step>, id: Id) {
    forall s :: s in steps && s.Delete? ==> s.id != id
  }

  /** The status update that a step makes of a message: a receipt, or the acknowledgement of its send. */
  function UpdateOf(step: Step, id: Id): (r: seq<Status>) {
    if step.StatusUpdate? && step.id == id then [step.status]
    else if step.FinishSend? && step.id == id then [StatusSent]
    else []
  }

  function UpdatesOf(steps: seq<Step>, id: Id): (r: seq<Status>) {
    if steps == [] then [] else UpdatesOf(steps[..|steps| - 1], id) + UpdateOf(steps[|steps| - 1], id)
  }

  /** Text, kind, quote, direction and forwarding mark of a message. */
  predicate SaysTheSame(a: Message, b: Message) {
    && a.id == b.id && a.body == b.body && a.kind == b.kind && a.quoted == b.quoted
    && a.senderName == b.senderName && a.outgoing == b.outgoing && a.forwarded == b.forwarded
  }

  /**
   A stored message stays until it is deleted, and no step edits what was said; its status is
   settled by its own updates.
   */
  lemma StaysUntilDeleted(db: Db, steps: seq<Step>, m: Message)
    requires RowOf(db.messages, m.id) == Some(m) && NeverDeleted(steps, m.id)
    ensures var after := RowOf(RunDb(db, steps).messages, m.id);
            && after.Some? && SaysTheSame(m, after.value)
            && after.value.status == Delivery.Final(m.status, UpdatesOf(steps, m.id))
  {
    MessageLivesItsOwnLife(db, steps, m.id);
    LifeSaysTheSame(m, steps);
  }

  lemma {:induction false} LifeSaysTheSame(m: Message, steps: seq<Step>)
    requires NeverDeleted(steps, m.id)
    ensures var after := Life(Some(m), m.id, steps);
            && after.Some? && SaysTheSame(m, after.value)
            && after.value.status == Delivery.Final(m.status, UpdatesOf(steps, m.id))
  {
    if steps != [] {
      var before, last := steps[..|steps| - 1], steps[|steps| - 1];
      assert steps == before + [last];
      LifeSaysTheSame(m, before);
      NextSaysTheSame(Life(Some(m), m.id, before).value, last);
      FinalStep(m.status, UpdatesOf(before, m.id), UpdateOf(last, m.id));
    }
  }

  lemma NextSaysTheSame(m: Message, step: Step)
    requires step.Delete? ==> step.id != m.id
    ensures var after, update := Next(Some(m), m.id, step), UpdateOf(step, m.id);
            && after.Some? && SaysTheSame(m, after.value)
            && after.value.status == if update == [] then m.status else Delivery.Advance(m.status, update[0])
  {
  }

  lemma FinalStep(initial: Status, before: seq<Status>, update: seq<Status>)
    requires |update| <= 1
    ensures var status, after := Delivery.Final(initial, before), Delivery.Final(initial, before + update);
            after == if update == [] then status else Delivery.Advance(status, update[0])
  {
    if update == [] {
      assert before + update == before;
    } else {
      assert (before + update)[..|before|] == before;
    }
  }

  /** Which step last spoke about whether an id is stored. */
  predicate Kept(stored: bool, steps: seq<Step>, id: Id) {
    if steps == [] then stored
    else
      var last := steps[|steps| - 1];
      if (last.ReceiveMessage? || last.InsertOutgoing?) && last.m.row.id == id then true
      else if last.SyncHistory? && id in BatchIds(last.c.batch) then true
      else if last.Delete? && last.id == id then false
      else Kept(stored, steps[..|steps| - 1], id)
  }

  /** An id is stored exactly when it came after it was last deleted: live, sent or by history. */
  lemma {:induction false} StoredIff(db: Db, steps: seq<Step>, id: Id)
    ensures id in Ids(RunDb(db, steps).messages) <==> Kept(id in Ids(db.messages), steps, id)
  {
    if steps != [] {
      var before, last := steps[..|steps| - 1], steps[|steps| - 1];
      StoredIff(db, before, id);
      StepOnRow(RunDb(db, before), last, id);
      if last.SyncHistory? {
        FirstInBatch(last.c.batch, id);
      }
    }
  }

  lemma {:induction false} FirstInBatch(batch: seq<Incoming>, id: Id)
    ensures FirstIn(batch, id).Some? <==> id in BatchIds(batch)
  {
    if batch != [] {
      var before, last := batch[..|batch| - 1], batch[|batch| - 1];
      FirstInBatch(before, id);
      assert batch == before + [last];
      assert BatchIds(batch) == BatchIds(before) + {last.row.id};
    }
  }

  /** Of several rows with one id it is the first. */
  lemma {:induction false} FirstInIsFirst(batch: seq<Incoming>, id: Id) returns (i: nat)
    requires FirstIn(batch, id).Some?
    ensures i < |batch| && batch[i].row.id == id && FirstIn(batch, id).value == batch[i].row
    ensures forall k :: 0 <= k < i ==> batch[k].row.id != id
  {
    var before := batch[..|batch| - 1];
    if FirstIn(before, id).Some? {
      i := FirstInIsFirst(before, id);
    } else {
      i := |before|;
      FirstInBatch(before, id);
      assert forall k :: 0 <= k < |before| ==> before[k] in before;
    }
  }
}
