/**
 Delivery status of outgoing messages: UpdateMessageStatus in apps/daemon/store/store.go, and
 the updates that sends, retries and receipts make in apps/daemon/wa/session.go. Each update is
 one atomic step.
 */
module Delivery {
  import opened Tables
  import opened Wrappers

  /** statusRank; 0 stands for a status that is not in the table, such as "failed". */
  function Rank(s: Status): (r: nat) {
    match s
    case StatusPending => 1
    case StatusSent => 2
    case StatusDelivered => 3
    case StatusRead => 4
    case StatusFailed => 0
    case OtherStatus(_) => 0
  }

  predicate Ranked(s: Status) {
    Rank(s) > 0
  }

  function Advance(current: Status, update: Status): (r: Status) {
    if Ranked(update) && Ranked(current) && Rank(current) >= Rank(update) then current else update
  }

  function Marked(m: Message, id: Id, status: Status): (r: Message) {
    if m.id == id then m.(status := status) else m
  }

  /** UPDATE messages SET status = ? WHERE id = ?. */
  function SetStatus(messages: seq<Message>, id: Id, status: Status): (r: seq<Message>) {
    if messages == [] then []
    else
      SetStatus(messages[..|messages| - 1], id, status) + [Marked(messages[|messages| - 1], id, status)]
  }

  /** SELECT status FROM messages WHERE id = ?. */
  function StatusOf(messages: seq<Message>, id: Id): (r: Option<Status>) {
    if messages == [] then None
    else if messages[|messages| - 1].id == id then Some(messages[|messages| - 1].status)
    else StatusOf(messages[..|messages| - 1], id)
  }

  function UpdateMessageStatus(messages: seq<Message>, id: Id, status: Status): (r: (seq<Message>, Result)) {
    if !Ranked(status) then (SetStatus(messages, id, status), Ok)
    else
      match StatusOf(messages, id)
      case None => (messages, ErrNotFound)
      case Some(current) =>
        if Ranked(current) && Rank(current) >= Rank(status) then (messages, Ok)
        else (SetStatus(messages, id, status), Ok)
  }

  /** Status updates of one message, in the order they reach the store. */
  function Final(initial: Status, updates: seq<Status>): (r: Status) {
    if updates == [] then initial
    else Advance(Final(initial, updates[..|updates| - 1]), updates[|updates| - 1])
  }

  function UpdateAll(messages: seq<Message>, id: Id, updates: seq<Status>): (r: seq<Message>) {
    if updates == [] then messages
    else UpdateMessageStatus(UpdateAll(messages, id, updates[..|updates| - 1]), id, updates[|updates| - 1]).0
  }

  // ---------------------------------------------------------------- the order of statuses

  ghost predicate AllRanked(updates: seq<Status>) {
    forall u :: u in updates ==> Ranked(u)
  }

  /** s is the highest of the updates and, when it is ranked, of the initial status. */
  ghost predicate Highest(s: Status, initial: Status, updates: seq<Status>) {
    && (s == initial || s in updates)
    && (forall u :: u in updates ==> Rank(u) <= Rank(s))
    && Rank(initial) <= Rank(s)
    && (!Ranked(initial) && updates != [] ==> s in updates)
  }

  /** Without a failure in between, receipts can only raise the status. */
  lemma {:induction false} FinalIsHighest(initial: Status, updates: seq<Status>)
    requires AllRanked(updates)
    ensures Highest(Final(initial, updates), initial, updates)
  {
    if updates != [] {
      var before, last := updates[..|updates| - 1], updates[|updates| - 1];
      assert updates == before + [last];
      FinalIsHighest(initial, before);
      assert Ranked(last) by { assert last in updates; }
    }
  }

  /** Read beats delivered, delivered beats sent, sent beats pending, in whatever order they come. */
  lemma ReceiptsInOrder(initial: Status, updates: seq<Status>)
    requires forall u :: u in updates ==> u.StatusPending? || u.StatusSent? || u.StatusDelivered? || u.StatusRead?
    ensures var seen := [initial] + updates;
            Final(initial, updates) ==
              if StatusRead in seen then StatusRead
              else if StatusDelivered in seen then StatusDelivered
              else if StatusSent in seen then StatusSent
              else if StatusPending in seen then StatusPending
              else initial
  {
    FinalIsHighest(initial, updates);
  }

  /** A failure always lands, and everything but a failure replaces it. */
  lemma FailureLands(initial: Status, updates: seq<Status>, next: Status)
    ensures Final(initial, updates + [StatusFailed]) == StatusFailed
    ensures Final(initial, updates + [StatusFailed, next]) == next
  {
    FailureResets(initial, updates, StatusFailed, []);
    FailureResets(initial, updates, StatusFailed, [next]);
    assert updates + [StatusFailed] == updates + [StatusFailed] + [];
    assert updates + [StatusFailed, next] == updates + [StatusFailed] + [next];
    assert [next][..0] == [];
  }

  /** A failure forgets everything before it. */
  lemma {:induction false} FailureResets(initial: Status, before: seq<Status>, failure: Status, after: seq<Status>)
    requires !Ranked(failure)
    ensures Final(initial, before + [failure] + after) == Final(failure, after)
  {
    var all := before + [failure] + after;
    if after == [] {
      assert all[..|all| - 1] == before;
    } else {
      FailureResets(initial, before, failure, after[..|after| - 1]);
      assert all[..|all| - 1] == before + [failure] + after[..|after| - 1];
    }
  }

  /** Ranks tell ranked statuses apart, so a highest status is unique. */
  lemma HighestUnique(s: Status, t: Status, initial: Status, a: seq<Status>, b: seq<Status>)
    requires AllRanked(a) && AllRanked(b) && (forall u :: u in a <==> u in b) && (a == [] <==> b == [])
    requires Highest(s, initial, a) && Highest(t, initial, b)
    ensures s == t
  {
    assert Rank(s) == Rank(t);
  }

  /**
   The status after any run of updates: the highest since the last failure, or the failure
   when nothing followed, or the highest overall, initial status included, without a failure.
   */
  lemma {:induction false} FinalStatus(initial: Status, updates: seq<Status>, k: nat)
    requires k <= |updates| && AllRanked(updates[k..])
    requires k == 0 || !Ranked(updates[k - 1])
    ensures Highest(Final(initial, updates), if k == 0 then initial else updates[k - 1], updates[k..])
  {
    FinalIsHighest(if k == 0 then initial else updates[k - 1], updates[k..]);
    if k > 0 {
      FailureResets(initial, updates[..k - 1], updates[k - 1], updates[k..]);
      assert updates == updates[..k - 1] + [updates[k - 1]] + updates[k..];
    } else {
      assert updates[0..] == updates;
    }
  }

  /** The server's acknowledgement and the receipts of one send may reach the store in any order. */
  lemma AnyOrderSameStatus(initial: Status, a: seq<Status>, b: seq<Status>)
    requires AllRanked(a) && multiset(a) == multiset(b)
    ensures Final(initial, a) == Final(initial, b)
  {
    forall u ensures u in a <==> u in b {
      assert u in a <==> u in multiset(a);
      assert u in b <==> u in multiset(b);
    }
    assert |multiset(a)| == |a| && |multiset(b)| == |b|;
    FinalIsHighest(initial, a);
    FinalIsHighest(initial, b);
    HighestUnique(Final(initial, a), Final(initial, b), initial, a, b);
  }

  // ---------------------------------------------------------------- rows

  lemma {:induction false} SetStatusRows(messages: seq<Message>, id: Id, status: Status)
    ensures |SetStatus(messages, id, status)| == |messages|
    ensures forall i :: 0 <= i < |messages| ==>
              SetStatus(messages, id, status)[i] == Marked(messages[i], id, status)
  {
    if messages != [] {
      SetStatusRows(messages[..|messages| - 1], id, status);
    }
  }

  lemma {:induction false} SetStatusAnswers(messages: seq<Message>, id: Id, status: Status)
    ensures StatusOf(SetStatus(messages, id, status), id) == if StatusOf(messages, id).Some? then Some(status) else None
  {
    if messages != [] {
      var before := messages[..|messages| - 1];
      SetStatusAnswers(before, id, status);
      var s := SetStatus(before, id, status);
      assert SetStatus(messages, id, status)[..|s|] == s;
    }
  }

  /** An update moves no row and writes no column but the status. */
  lemma UpdateKeepsRows(messages: seq<Message>, id: Id, status: Status)
    ensures var after := UpdateMessageStatus(messages, id, status).0;
            && |after| == |messages|
            && forall i :: 0 <= i < |messages| ==> after[i] == messages[i].(status := after[i].status)
  {
    SetStatusRows(messages, id, status);
  }

  /**
   In the table: a run of updates changes the status of one row to Final and nothing else. No
   update adds a row, so a retry under the same id never does.
   */
  lemma {:induction false} UpdatesTouchOneStatus(messages: seq<Message>, id: Id, updates: seq<Status>)
    ensures var after := UpdateAll(messages, id, updates);
            && |after| == |messages|
            && (forall i :: 0 <= i < |messages| ==>
                  after[i] == if messages[i].id == id then messages[i].(status := after[i].status) else messages[i])
            && StatusOf(after, id) ==
                 if StatusOf(messages, id).Some? then Some(Final(StatusOf(messages, id).value, updates)) else None
  {
    UpdatesAnswer(messages, id, updates);
    if updates != [] {
      UpdatesTouchOneStatus(messages, id, updates[..|updates| - 1]);
      SetStatusRows(UpdateAll(messages, id, updates[..|updates| - 1]), id, updates[|updates| - 1]);
    }
  }

  lemma {:induction false} UpdatesAnswer(messages: seq<Message>, id: Id, updates: seq<Status>)
    ensures StatusOf(UpdateAll(messages, id, updates), id) ==
              if StatusOf(messages, id).Some? then Some(Final(StatusOf(messages, id).value, updates)) else None
  {
    if updates != [] {
      UpdatesAnswer(messages, id, updates[..|updates| - 1]);
      SetStatusAnswers(UpdateAll(messages, id, updates[..|updates| - 1]), id, updates[|updates| - 1]);
    }
  }

  // ---------------------------------------------------------------- sends and receipts

  predicate IsReceipt(s: Status) {
    s == StatusDelivered || s == StatusRead
  }

  ghost predicate Receipts(s: seq<Status>) {
    forall u :: u in s ==> IsReceipt(u)
  }

  /**
   What a send writes for its message: SendText starts from the pending row it inserted,
   RetryText first sets an existing row back to pending; `early` receipts reach the store
   before the acknowledgement does, `late` ones after it.
   */
  function SendUpdates(retry: bool, sent: bool, early: seq<Status>, late: seq<Status>): (r: seq<Status>) {
    (if retry then [StatusPending] else []) + early + [if sent then StatusSent else StatusFailed] + late
  }

  /** The receipts that count for a send: those that came with it, and one the row had already. */
  function SeenReceipts(initial: Status, early: seq<Status>, late: seq<Status>): (r: seq<Status>) {
    (if IsReceipt(initial) then [initial] else []) + early + late
  }

  /**
   Once a send succeeded, the status is sent, or the highest receipt, whenever each came. A
   retry may find any status: nothing checks that the earlier send failed.
   */
  lemma SuccessfulSend(retry: bool, initial: Status, early: seq<Status>, late: seq<Status>)
    requires Receipts(early) && Receipts(late)
    requires !retry ==> initial == StatusPending
    ensures var s, seen := Final(initial, SendUpdates(retry, true, early, late)), SeenReceipts(initial, early, late);
            && (s == StatusSent <==> seen == [])
            && (s == StatusRead <==> StatusRead in seen)
            && (s == StatusDelivered <==> seen != [] && StatusRead !in seen)
  {
    var updates, seen := SendUpdates(retry, true, early, late), SeenReceipts(initial, early, late);
    forall u | u in updates ensures Ranked(u) {}
    FinalIsHighest(initial, updates);
    assert updates[|updates| - 1 - |late|] == StatusSent;
    forall u ensures u in seen <==> IsReceipt(u) && (u == initial || u in updates) {
      assert u in seen <==> (u == initial && IsReceipt(initial)) || u in early || u in late;
      assert u in updates <==> (retry && u == StatusPending) || u in early || u == StatusSent || u in late;
    }
    assert seen != [] ==> seen[0] in seen;
  }

  /** A retry of a failed message shows it as pending first, and a send writes what came of it. */
  lemma RetryStartsPending(sent: bool, late: seq<Status>)
    ensures var updates := SendUpdates(true, sent, [], late);
            && Final(StatusFailed, updates[..1]) == StatusPending
            && Final(StatusFailed, updates[..2]) == if sent then StatusSent else StatusFailed
  {
    var updates := SendUpdates(true, sent, [], late);
    assert updates[..2][..1] == updates[..1] == [StatusPending] && updates[..1][..0] == [];
    assert updates[..2] == [StatusPending, if sent then StatusSent else StatusFailed];
    assert Final(StatusFailed, []) == StatusFailed;
  }

  /** A failed send leaves "failed" behind, even over an earlier receipt. */
  lemma FailedSend(retry: bool, initial: Status, early: seq<Status>)
    ensures Final(initial, SendUpdates(retry, false, early, [])) == StatusFailed
  {
    var prefix := (if retry then [StatusPending] else []) + early;
    FailureResets(initial, prefix, StatusFailed, []);
    assert SendUpdates(retry, false, early, []) == prefix + [StatusFailed] + [];
  }

  /**
   After a send the daemon publishes its own copy of the row, whose status says sent. That
   agrees with the store exactly when no receipt was faster than the acknowledgement and the
   row did not have one already.
   */
  lemma PublishedStatusMatchesStoreIff(retry: bool, initial: Status, early: seq<Status>)
    requires Receipts(early)
    requires !retry ==> initial == StatusPending
    ensures StatusSent == Final(initial, SendUpdates(retry, true, early, []))
            <==> early == [] && Rank(initial) <= Rank(StatusSent)
  {
    SuccessfulSend(retry, initial, early, []);
  }
}
