/**
 Folding chats stored under a LID onto their phone JID: the loop of mergeLIDChats
 (apps/daemon/wa/session.go) over MergeChat, for any stable mapping and any scan order.
 */
module Merge {
  import opened Records
  import opened Sequences
  import opened Tables
  import opened Wrappers

  /** canonicalChatJID: a LID resolves through the device's mapping, when it knows one. */
  function Canonical(alt: map<Jid, Jid>, jid: Jid): (r: Jid) {
    var plain := jid.ToNonAD();
    if plain.server != HiddenUserServer then plain
    else if plain in alt then alt[plain].ToNonAD()
    else plain
  }

  /** The mapping sends LIDs to JIDs that are not LIDs. */
  ghost predicate Stable(alt: map<Jid, Jid>) {
    forall j :: j in alt ==> alt[j].server != HiddenUserServer
  }

  lemma CanonicalIdempotent(alt: map<Jid, Jid>, jid: Jid)
    requires Stable(alt)
    ensures Canonical(alt, Canonical(alt, jid)) == Canonical(alt, jid)
  {
  }

  /** Where a JID leads: to the mapped JID for a LID the device knows, else to itself; no device part. */
  lemma CanonicalMeans(alt: map<Jid, Jid>, user: string, device: nat, server: Server)
    ensures var plain, to := Jid(user, 0, server), Canonical(alt, Jid(user, device, server));
            && to.device == 0
            && (server != HiddenUserServer || plain !in alt ==> to == plain)
            && (server == HiddenUserServer && plain in alt ==>
                  to.user == alt[plain].user && to.server == alt[plain].server)
  {
  }

  /** The chat a row ends up in: only LID rows are scanned, so only they move. */
  function Target(alt: map<Jid, Jid>, jid: Jid): (r: Jid) {
    if jid.server == HiddenUserServer then Canonical(alt, jid) else jid
  }

  /** One turn of the loop; `failed` holds the rows whose merge transaction failed. */
  function MergeStep(db: Db, alt: map<Jid, Jid>, failed: set<Jid>, jid: Jid): (r: Db) {
    var canonical := Canonical(alt, jid);
    if canonical == jid || jid in failed then db else MergeChat(db, jid, canonical)
  }

  function MergeAll(db: Db, alt: map<Jid, Jid>, failed: set<Jid>, scan: seq<Jid>): (r: Db) {
    if scan == [] then db
    else MergeStep(MergeAll(db, alt, failed, scan[..|scan| - 1]), alt, failed, scan[|scan| - 1])
  }

  ghost predicate IsScan(scan: seq<Jid>, chats: map<Jid, Chat>) {
    && NoDuplicates(scan)
    && forall j :: j in scan <==> j in chats && j.server == HiddenUserServer
  }

  // ---------------------------------------------------------------- groups of rows

  /** The rows that belong to one conversation once LIDs are resolved. */
  ghost function Group(chats: map<Jid, Chat>, alt: map<Jid, Jid>, t: Jid): (r: set<Jid>) {
    set j | j in chats && Target(alt, j) == t
  }

  ghost function Unread(chats: map<Jid, Chat>, rows: set<Jid>): (r: int)
    requires rows <= chats.Keys
  {
    if rows == {} then 0
    else
      var j :| j in rows;
      chats[j].unread + Unread(chats, rows - {j})
  }

  ghost function GroupUnread(chats: map<Jid, Chat>, alt: map<Jid, Jid>, t: Jid): (r: int) {
    Unread(chats, Group(chats, alt, t))
  }

  ghost predicate GroupArchived(chats: map<Jid, Chat>, alt: map<Jid, Jid>, t: Jid) {
    exists j :: j in chats && Target(alt, j) == t && chats[j].archived
  }

  ghost predicate GroupPinned(chats: map<Jid, Chat>, alt: map<Jid, Jid>, t: Jid) {
    exists j :: j in chats && Target(alt, j) == t && chats[j].pinned
  }

  /** ts is the newest updated_at of the rows of t's conversation. */
  ghost predicate GroupNewest(chats: map<Jid, Chat>, alt: map<Jid, Jid>, t: Jid, ts: int) {
    && (exists j :: j in chats && Target(alt, j) == t && chats[j].updatedAt == ts)
    && forall j :: j in chats && Target(alt, j) == t ==> chats[j].updatedAt <= ts
  }

  lemma {:induction false} UnreadRemove(chats: map<Jid, Chat>, rows: set<Jid>, j: Jid)
    requires rows <= chats.Keys && j in rows
    ensures Unread(chats, rows) == chats[j].unread + Unread(chats, rows - {j})
  {
    var k :| k in rows && Unread(chats, rows) == chats[k].unread + Unread(chats, rows - {k});
    if k != j {
      UnreadRemove(chats, rows - {k}, j);
      UnreadRemove(chats, rows - {j}, k);
      assert rows - {k} - {j} == rows - {j} - {k};
    }
  }

  lemma {:induction false} UnreadSame(a: map<Jid, Chat>, b: map<Jid, Chat>, rows: set<Jid>)
    requires rows <= a.Keys && rows <= b.Keys
    requires forall j :: j in rows ==> a[j].unread == b[j].unread
    ensures Unread(a, rows) == Unread(b, rows)
  {
    if rows != {} {
      var j :| j in rows;
      UnreadSame(a, b, rows - {j});
      UnreadRemove(a, rows, j);
      UnreadRemove(b, rows, j);
    }
  }

  /** Merging a row into its own conversation's target moves nothing between conversations. */
  lemma MergeKeepsUnread(chats: map<Jid, Chat>, alt: map<Jid, Jid>, from: Jid, to: Jid, t: Jid)
    requires from != to && Target(alt, from) == Target(alt, to) == to
    ensures GroupUnread(FoldChat(chats, from, to) - {from}, alt, t) == GroupUnread(chats, alt, t)
  {
    var after := FoldChat(chats, from, to) - {from};
    var rows, kept := Group(chats, alt, t), Group(after, alt, t);
    if from !in chats {
      assert after == chats;
    } else if t != to {
      assert rows == kept;
      UnreadSame(chats, after, rows);
    } else {
      var others := rows - {from} - {to};
      assert kept == others + {to};
      assert kept - {to} == others;
      UnreadRemove(after, kept, to);
      UnreadSame(chats, after, others);
      UnreadRemove(chats, rows, from);
      if to in chats {
        UnreadRemove(chats, rows - {from}, to);
      } else {
        assert rows - {from} == others;
      }
    }
  }

  lemma MergeKeepsFlags(chats: map<Jid, Chat>, alt: map<Jid, Jid>, from: Jid, to: Jid, t: Jid)
    requires from != to && Target(alt, from) == Target(alt, to) == to
    ensures var after := FoldChat(chats, from, to) - {from};
            && (GroupArchived(after, alt, t) <==> GroupArchived(chats, alt, t))
            && (GroupPinned(after, alt, t) <==> GroupPinned(chats, alt, t))
  {
    var after := FoldChat(chats, from, to) - {from};
    if from in chats {
      assert to in after;
      forall j | j in chats && j != from && j != to ensures j in after && after[j] == chats[j] {}
    }
  }

  lemma MergeKeepsNewest(chats: map<Jid, Chat>, alt: map<Jid, Jid>, from: Jid, to: Jid, t: Jid, ts: int)
    requires from != to && Target(alt, from) == Target(alt, to) == to
    ensures GroupNewest(FoldChat(chats, from, to) - {from}, alt, t, ts) <==> GroupNewest(chats, alt, t, ts)
  {
    var after := FoldChat(chats, from, to) - {from};
    if from in chats {
      assert to in after;
      forall j | j in chats && j != from && j != to ensures j in after && after[j] == chats[j] {}
    }
  }

  /** The same for the whole table, whatever the mapping says about other rows. */
  lemma MergeKeepsTotalUnread(chats: map<Jid, Chat>, from: Jid, to: Jid)
    requires from != to
    ensures var after := FoldChat(chats, from, to) - {from};
            Unread(after, after.Keys) == Unread(chats, chats.Keys)
  {
    var after := FoldChat(chats, from, to) - {from};
    if from !in chats {
      assert after == chats;
    } else {
      var others := chats.Keys - {from} - {to};
      assert after.Keys == others + {to} && after.Keys - {to} == others;
      UnreadRemove(after, after.Keys, to);
      UnreadSame(chats, after, others);
      UnreadRemove(chats, chats.Keys, from);
      if to in chats {
        UnreadRemove(chats, chats.Keys - {from}, to);
      } else {
        assert chats.Keys - {from} == others;
      }
    }
  }

  // ---------------------------------------------------------------- the loop

  /** What any number of merges keeps of every conversation. */
  ghost predicate SameConversations(alt: map<Jid, Jid>, a: map<Jid, Chat>, b: map<Jid, Chat>) {
    && Unread(a, a.Keys) == Unread(b, b.Keys)
    && forall t :: SameConversation(alt, a, b, t)
  }

  ghost predicate SameConversation(alt: map<Jid, Jid>, a: map<Jid, Chat>, b: map<Jid, Chat>, t: Jid) {
    && GroupUnread(a, alt, t) == GroupUnread(b, alt, t)
    && (GroupArchived(a, alt, t) <==> GroupArchived(b, alt, t))
    && (GroupPinned(a, alt, t) <==> GroupPinned(b, alt, t))
    && forall ts :: GroupNewest(a, alt, t, ts) <==> GroupNewest(b, alt, t, ts)
  }

  /** The same messages in the same order, each still in its own conversation. */
  ghost predicate SameMessages(alt: map<Jid, Jid>, a: seq<Message>, b: seq<Message>) {
    && |a| == |b|
    && forall i :: 0 <= i < |a| ==>
         && b[i] == a[i].(chatJid := b[i].chatJid)
         && Target(alt, b[i].chatJid) == Target(alt, a[i].chatJid)
  }

  lemma StepKeepsConversations(db: Db, alt: map<Jid, Jid>, failed: set<Jid>, jid: Jid)
    requires Stable(alt) && jid.server == HiddenUserServer
    ensures var after := MergeStep(db, alt, failed, jid);
            SameConversations(alt, db.chats, after.chats) && SameMessages(alt, db.messages, after.messages)
  {
    var to := Canonical(alt, jid);
    CanonicalIdempotent(alt, jid);
    if to != jid && jid !in failed {
      var after := MergeChat(db, jid, to);
      MergeKeepsTotalUnread(db.chats, jid, to);
      forall t ensures SameConversation(alt, db.chats, after.chats, t) {
        MergeKeepsUnread(db.chats, alt, jid, to, t);
        MergeKeepsFlags(db.chats, alt, jid, to, t);
        forall ts ensures GroupNewest(db.chats, alt, t, ts) <==> GroupNewest(after.chats, alt, t, ts) {
          MergeKeepsNewest(db.chats, alt, jid, to, t, ts);
        }
      }
    }
  }

  /**
   Conservation, for every table, mapping, scan order and set of failing transactions: no
   message is lost or changes conversation, no unread count is lost, and each conversation
   keeps its unread sum, whether any of its rows is archived or pinned, and its newest activity.
   */
  lemma {:induction false} MergeConserves(db: Db, alt: map<Jid, Jid>, failed: set<Jid>, scan: seq<Jid>)
    requires Stable(alt) && forall j :: j in scan ==> j.server == HiddenUserServer
    ensures var after := MergeAll(db, alt, failed, scan);
            && SameConversations(alt, db.chats, after.chats)
            && SameMessages(alt, db.messages, after.messages)
            && after.media == db.media
  {
    if scan != [] {
      var before := scan[..|scan| - 1];
      MergeConserves(db, alt, failed, before);
      var mid := MergeAll(db, alt, failed, before);
      StepKeepsConversations(mid, alt, failed, scan[|scan| - 1]);
      forall t ensures SameConversation(alt, db.chats, MergeAll(db, alt, failed, scan).chats, t) {
        assert SameConversation(alt, db.chats, mid.chats, t);
        assert SameConversation(alt, mid.chats, MergeAll(db, alt, failed, scan).chats, t);
      }
    }
  }

  ghost predicate Leftover(alt: map<Jid, Jid>, failed: set<Jid>, scan: seq<Jid>, j: Jid) {
    j in scan && Canonical(alt, j) != j && j !in failed
  }

  /** No processed row that has another home is left, and none holds a message. */
  lemma {:induction false} MergeLeavesNoDuplicates(db: Db, alt: map<Jid, Jid>, failed: set<Jid>, scan: seq<Jid>, j: Jid)
    requires Stable(alt)
    ensures var after := MergeAll(db, alt, failed, scan);
            && (Leftover(alt, failed, scan, j) ==>
                  j !in after.chats && forall m :: m in after.messages ==> m.chatJid != j)
            && (j in after.chats ==> j in db.chats || Canonical(alt, j) == j)
  {
    if scan != [] {
      var before, last := scan[..|scan| - 1], scan[|scan| - 1];
      MergeLeavesNoDuplicates(db, alt, failed, before, j);
      CanonicalIdempotent(alt, last);
      assert scan == before + [last];
      var mid, after := MergeAll(db, alt, failed, before), MergeAll(db, alt, failed, scan);
      if Leftover(alt, failed, scan, j) {
        forall m | m in after.messages ensures m.chatJid != j {
          var i :| 0 <= i < |after.messages| && after.messages[i] == m;
          assert mid.messages[i] in mid.messages;
        }
      }
    }
  }

  /** After the loop every LID row is the canonical one, unless its own merge failed. */
  lemma LoopCanonicalises(db: Db, alt: map<Jid, Jid>, failed: set<Jid>, scan: seq<Jid>, j: Jid)
    requires Stable(alt) && IsScan(scan, db.chats)
    requires j in MergeAll(db, alt, failed, scan).chats && j.server == HiddenUserServer
    ensures Canonical(alt, j) == j || j in failed
  {
    MergeLeavesNoDuplicates(db, alt, failed, scan, j);
  }

  /** With every merge committed, each row is its whole conversation. */
  lemma RowIsConversation(db: Db, alt: map<Jid, Jid>, scan: seq<Jid>, t: Jid)
    requires Stable(alt) && IsScan(scan, db.chats)
    requires t in MergeAll(db, alt, {}, scan).chats
    ensures var row := MergeAll(db, alt, {}, scan).chats[t];
            && row.unread == GroupUnread(db.chats, alt, t)
            && (row.archived <==> GroupArchived(db.chats, alt, t))
            && (row.pinned <==> GroupPinned(db.chats, alt, t))
            && GroupNewest(db.chats, alt, t, row.updatedAt)
  {
    var after := MergeAll(db, alt, {}, scan);
    MergeConserves(db, alt, {}, scan);
    assert SameConversation(alt, db.chats, after.chats, t);
    forall j | j in after.chats ensures Target(alt, j) == j {
      if j.server == HiddenUserServer {
        LoopCanonicalises(db, alt, {}, scan, j);
      }
    }
    assert Group(after.chats, alt, t) == {t};
    UnreadRemove(after.chats, {t}, t);
    assert {t} - {t} == {};
    assert GroupNewest(after.chats, alt, t, after.chats[t].updatedAt);
  }

  /** Which rows survive is decided by the table and the mapping alone. */
  lemma {:induction false} SurvivingRows(db: Db, alt: map<Jid, Jid>, scan: seq<Jid>, t: Jid)
    requires Stable(alt) && NoDuplicates(scan) && forall j :: j in scan ==> j in db.chats
    ensures t in MergeAll(db, alt, {}, scan).chats <==>
              || (t in db.chats && !(t in scan && Canonical(alt, t) != t))
              || exists j :: j in scan && Canonical(alt, j) == t
  {
    if scan != [] {
      var before, last := scan[..|scan| - 1], scan[|scan| - 1];
      assert scan == before + [last];
      SurvivingRows(db, alt, before, t);
      SurvivingRows(db, alt, before, last);
      CanonicalIdempotent(alt, last);
      forall j | j in before ensures Canonical(alt, Canonical(alt, j)) == Canonical(alt, j) {
        CanonicalIdempotent(alt, j);
      }
      assert last !in before;
    }
  }

  /** Neither which rows survive nor their unread count, archived, pinned and activity depend on the order. */
  lemma OrderDoesNotMatter(db: Db, alt: map<Jid, Jid>, scan: seq<Jid>, other: seq<Jid>, t: Jid)
    requires Stable(alt) && IsScan(scan, db.chats) && IsScan(other, db.chats)
    ensures var one, two := MergeAll(db, alt, {}, scan).chats, MergeAll(db, alt, {}, other).chats;
            && (t in one <==> t in two)
            && (t in one && t in two ==>
                  && one[t].unread == two[t].unread && one[t].archived == two[t].archived
                  && one[t].pinned == two[t].pinned && one[t].updatedAt == two[t].updatedAt)
  {
    SurvivingRows(db, alt, scan, t);
    SurvivingRows(db, alt, other, t);
    if t in MergeAll(db, alt, {}, scan).chats {
      RowIsConversation(db, alt, scan, t);
      RowIsConversation(db, alt, other, t);
    }
  }

  /** A LID row that the mapping knows is gone afterwards, and its phone JID has a row. */
  lemma MappedLidsMove(db: Db, alt: map<Jid, Jid>, scan: seq<Jid>, user: string)
    requires Stable(alt) && IsScan(scan, db.chats)
    requires var lid := Jid(user, 0, HiddenUserServer); lid in db.chats && lid in alt
    ensures var lid := Jid(user, 0, HiddenUserServer);
            var after := MergeAll(db, alt, {}, scan).chats;
            lid !in after && Jid(alt[lid].user, 0, alt[lid].server) in after
  {
    var lid := Jid(user, 0, HiddenUserServer);
    CanonicalMeans(alt, user, 0, HiddenUserServer);
    SurvivingRows(db, alt, scan, lid);
    SurvivingRows(db, alt, scan, Canonical(alt, lid));
    MergeLeavesNoDuplicates(db, alt, {}, scan, lid);
  }

  /** A row that is no LID, and a LID the mapping does not know, stays. */
  lemma OtherRowsStay(db: Db, alt: map<Jid, Jid>, scan: seq<Jid>, j: Jid)
    requires Stable(alt) && IsScan(scan, db.chats) && j in db.chats
    requires j.server != HiddenUserServer || (j.device == 0 && j !in alt)
    ensures j in MergeAll(db, alt, {}, scan).chats
  {
    CanonicalMeans(alt, j.user, j.device, j.server);
    SurvivingRows(db, alt, scan, j);
  }

  // ---------------------------------------------------------------- texts

  /** The two columns of which a merge keeps the first one that is not empty. */
  datatype Text = Name | Preview

  function TextOf(c: Chat, text: Text): (r: string) {
    match text
    case Name => c.name
    case Preview => c.lastMessage
  }

  /** Does the loop fold j into t? */
  predicate FoldsInto(alt: map<Jid, Jid>, failed: set<Jid>, j: Jid, t: Jid) {
    Canonical(alt, j) == t && j != t && j !in failed
  }

  /** The first text that is not empty among the scanned rows folded into t, in scan order. */
  function FirstText(chats: map<Jid, Chat>, alt: map<Jid, Jid>, failed: set<Jid>, scan: seq<Jid>, t: Jid,
      text: Text): (r: string) {
    if scan == [] then ""
    else
      var before, last := FirstText(chats, alt, failed, scan[..|scan| - 1], t, text), scan[|scan| - 1];
      if before == "" && last in chats && FoldsInto(alt, failed, last, t) then TextOf(chats[last], text) else before
  }

  /** A row that has another home is not written before its own turn. */
  lemma {:induction false} UntouchedBeforeTurn(db: Db, alt: map<Jid, Jid>, failed: set<Jid>, scan: seq<Jid>, j: Jid)
    requires Stable(alt) && Canonical(alt, j) != j && j !in scan
    ensures var after := MergeAll(db, alt, failed, scan).chats;
            (j in after <==> j in db.chats) && (j in after && j in db.chats ==> after[j] == db.chats[j])
  {
    if scan != [] {
      var last := scan[|scan| - 1];
      UntouchedBeforeTurn(db, alt, failed, scan[..|scan| - 1], j);
      CanonicalIdempotent(alt, last);
      assert last in scan;
    }
  }

  /**
   For every table, mapping, scan order and set of failing merges: a surviving row has its own
   text when it had one, and otherwise the first text among the rows folded into it.
   */
  lemma {:induction false} TextAfterMerges(db: Db, alt: map<Jid, Jid>, failed: set<Jid>, scan: seq<Jid>, t: Jid,
      text: Text)
    requires Stable(alt) && NoDuplicates(scan)
    requires t in MergeAll(db, alt, failed, scan).chats
    ensures TextOf(MergeAll(db, alt, failed, scan).chats[t], text) ==
              if t in db.chats && TextOf(db.chats[t], text) != "" then TextOf(db.chats[t], text)
              else FirstText(db.chats, alt, failed, scan, t, text)
  {
    if scan != [] {
      var before, last := scan[..|scan| - 1], scan[|scan| - 1];
      var mid := MergeAll(db, alt, failed, before);
      CanonicalIdempotent(alt, last);
      if t in mid.chats {
        TextAfterMerges(db, alt, failed, before, t, text);
      } else {
        NothingFolded(db, alt, failed, before, t, text);
      }
      if FoldsInto(alt, failed, last, t) {
        UntouchedBeforeTurn(db, alt, failed, before, last);
      }
    }
  }

  /** While a canonical row is missing, no stored row has been folded into it. */
  lemma {:induction false} NothingFolded(db: Db, alt: map<Jid, Jid>, failed: set<Jid>, scan: seq<Jid>, t: Jid,
      text: Text)
    requires Stable(alt) && NoDuplicates(scan) && Canonical(alt, t) == t
    requires t !in MergeAll(db, alt, failed, scan).chats
    ensures t !in db.chats && FirstText(db.chats, alt, failed, scan, t, text) == ""
  {
    if scan != [] {
      var before, last := scan[..|scan| - 1], scan[|scan| - 1];
      CanonicalIdempotent(alt, last);
      NothingFolded(db, alt, failed, before, t, text);
      if FoldsInto(alt, failed, last, t) {
        UntouchedBeforeTurn(db, alt, failed, before, last);
      }
    }
  }

  /** The first text is one of those folded in, and empty only if they all are. */
  lemma {:induction false} FirstTextIsOne(chats: map<Jid, Chat>, alt: map<Jid, Jid>, failed: set<Jid>,
      scan: seq<Jid>, t: Jid, text: Text)
    ensures var first := FirstText(chats, alt, failed, scan, t, text);
            if first == ""
            then forall j :: j in scan && j in chats && FoldsInto(alt, failed, j, t) ==> TextOf(chats[j], text) == ""
            else exists j :: j in scan && j in chats && FoldsInto(alt, failed, j, t) && TextOf(chats[j], text) == first
  {
    if scan != [] {
      FirstTextIsOne(chats, alt, failed, scan[..|scan| - 1], t, text);
      assert scan == scan[..|scan| - 1] + [scan[|scan| - 1]];
    }
  }

  lemma {:induction false} FirstTextStays(chats: map<Jid, Chat>, alt: map<Jid, Jid>, failed: set<Jid>, a: seq<Jid>,
      b: seq<Jid>, t: Jid, text: Text)
    requires FirstText(chats, alt, failed, a, t, text) != ""
    ensures FirstText(chats, alt, failed, a + b, t, text) == FirstText(chats, alt, failed, a, t, text)
  {
    if b == [] {
      assert a + b == a;
    } else {
      FirstTextStays(chats, alt, failed, a, b[..|b| - 1], t, text);
      assert (a + b)[..|a + b| - 1] == a + b[..|b| - 1];
    }
  }

  /** The stored text of t wins, or all the texts that could be folded into t are the same. */
  ghost predicate TextIsSettled(chats: map<Jid, Chat>, alt: map<Jid, Jid>, t: Jid, text: Text) {
    || (t in chats && TextOf(chats[t], text) != "")
    || forall i, j :: Offers(chats, alt, i, t, text) && Offers(chats, alt, j, t, text) ==>
        TextOf(chats[i], text) == TextOf(chats[j], text)
  }

  predicate Offers(chats: map<Jid, Chat>, alt: map<Jid, Jid>, j: Jid, t: Jid, text: Text) {
    j in chats && j.server == HiddenUserServer && FoldsInto(alt, {}, j, t) && TextOf(chats[j], text) != ""
  }

  /** The row a scan leaves for t. */
  function Left(db: Db, alt: map<Jid, Jid>, scan: seq<Jid>, t: Jid): (r: Option<Chat>) {
    var after := MergeAll(db, alt, {}, scan).chats;
    if t in after then Some(after[t]) else None
  }

  ghost predicate SameText(a: Option<Chat>, b: Option<Chat>, text: Text) {
    a.Some? && b.Some? ==> TextOf(a.value, text) == TextOf(b.value, text)
  }

  /**
   When does a text depend on the scan order? All scans leave t with the same text exactly when
   t has one of its own, or all rows folded into t that have one have the same.
   */
  lemma OrderSettlesTextIff(db: Db, alt: map<Jid, Jid>, t: Jid, text: Text)
    requires Stable(alt)
    ensures (forall scan, other :: IsScan(scan, db.chats) && IsScan(other, db.chats) ==>
               SameText(Left(db, alt, scan, t), Left(db, alt, other, t), text))
            <==> TextIsSettled(db.chats, alt, t, text)
  {
    if TextIsSettled(db.chats, alt, t, text) {
      forall scan, other | IsScan(scan, db.chats) && IsScan(other, db.chats)
        ensures SameText(Left(db, alt, scan, t), Left(db, alt, other, t), text)
      {
        SettledTextSame(db, alt, scan, other, t, text);
      }
    } else {
      var i, j :| Offers(db.chats, alt, i, t, text) && Offers(db.chats, alt, j, t, text) &&
          TextOf(db.chats[i], text) != TextOf(db.chats[j], text);
      var scan := ScanFrom(db.chats, i);
      var other := ScanFrom(db.chats, j);
      FirstOfScan(db, alt, scan, t, text);
      FirstOfScan(db, alt, other, t, text);
      assert !SameText(Left(db, alt, scan, t), Left(db, alt, other, t), text);
    }
  }

  lemma SettledTextSame(db: Db, alt: map<Jid, Jid>, scan: seq<Jid>, other: seq<Jid>, t: Jid, text: Text)
    requires Stable(alt) && IsScan(scan, db.chats) && IsScan(other, db.chats) && TextIsSettled(db.chats, alt, t, text)
    ensures SameText(Left(db, alt, scan, t), Left(db, alt, other, t), text)
  {
    if Left(db, alt, scan, t).Some? && Left(db, alt, other, t).Some? {
      TextAfterMerges(db, alt, {}, scan, t, text);
      TextAfterMerges(db, alt, {}, other, t, text);
      FirstTextIsOne(db.chats, alt, {}, scan, t, text);
      FirstTextIsOne(db.chats, alt, {}, other, t, text);
      var one, two := FirstText(db.chats, alt, {}, scan, t, text), FirstText(db.chats, alt, {}, other, t, text);
      if one != "" {
        var i :| i in scan && i in db.chats && FoldsInto(alt, {}, i, t) && TextOf(db.chats[i], text) == one;
        assert Offers(db.chats, alt, i, t, text) && i in other;
      }
      if two != "" {
        var j :| j in other && j in db.chats && FoldsInto(alt, {}, j, t) && TextOf(db.chats[j], text) == two;
        assert Offers(db.chats, alt, j, t, text) && j in scan;
      }
    }
  }

  /** A row that offers a text gives it to t when it is scanned first. */
  lemma FirstOfScan(db: Db, alt: map<Jid, Jid>, scan: seq<Jid>, t: Jid, text: Text)
    requires Stable(alt) && IsScan(scan, db.chats) && scan != [] && Offers(db.chats, alt, scan[0], t, text)
    requires t in db.chats ==> TextOf(db.chats[t], text) == ""
    ensures var left := Left(db, alt, scan, t);
            left.Some? && TextOf(left.value, text) == TextOf(db.chats[scan[0]], text)
  {
    SurvivingRows(db, alt, scan, t);
    TextAfterMerges(db, alt, {}, scan, t, text);
    var first, rest := scan[..1], scan[1..];
    assert first[..0] == [];
    FirstTextStays(db.chats, alt, {}, first, rest, t, text);
    assert first + rest == scan;
  }

  /** The LID rows can be scanned in an order that starts with any of them. */
  lemma ScanFrom(chats: map<Jid, Chat>, j: Jid) returns (scan: seq<Jid>)
    requires j in chats && j.server == HiddenUserServer
    ensures IsScan(scan, chats) && scan != [] && scan[0] == j
  {
    var rest := Listed((set k | k in chats && k.server == HiddenUserServer) - {j});
    scan := [j] + rest;
  }

  lemma {:induction false} Listed(rows: set<Jid>) returns (s: seq<Jid>)
    ensures NoDuplicates(s) && forall j :: j in s <==> j in rows
  {
    if rows == {} {
      s := [];
    } else {
      var j :| j in rows;
      s := Listed(rows - {j});
      s := s + [j];
    }
  }

  // ---------------------------------------------------------------- columns that no merge combines

  /** The mute and the group mark: a merge never writes them to a row that is stored. */
  datatype Column = Mute | GroupMark

  predicate SameIn(a: Chat, b: Chat, column: Column) {
    match column
    case Mute => a.mutedUntil == b.mutedUntil
    case GroupMark => a.isGroup == b.isGroup
  }

  /** The first scanned row that is folded into t. */
  function FirstFolded(chats: map<Jid, Chat>, alt: map<Jid, Jid>, failed: set<Jid>, scan: seq<Jid>,
      t: Jid): (r: Option<Jid>) {
    if scan == [] then None
    else
      var before, last := FirstFolded(chats, alt, failed, scan[..|scan| - 1], t), scan[|scan| - 1];
      if before.None? && last in chats && FoldsInto(alt, failed, last, t) then Some(last) else before
  }

  lemma {:induction false} FirstFoldedIsOne(chats: map<Jid, Chat>, alt: map<Jid, Jid>, failed: set<Jid>,
      scan: seq<Jid>, t: Jid)
    ensures match FirstFolded(chats, alt, failed, scan, t)
            case None => forall j :: j in scan && j in chats ==> !FoldsInto(alt, failed, j, t)
            case Some(j) => j in scan && j in chats && FoldsInto(alt, failed, j, t)
  {
    if scan != [] {
      FirstFoldedIsOne(chats, alt, failed, scan[..|scan| - 1], t);
      InitAndLast(scan);
    }
  }

  lemma {:induction false} FirstFoldedStays(chats: map<Jid, Chat>, alt: map<Jid, Jid>, failed: set<Jid>,
      a: seq<Jid>, b: seq<Jid>, t: Jid)
    requires FirstFolded(chats, alt, failed, a, t).Some?
    ensures FirstFolded(chats, alt, failed, a + b, t) == FirstFolded(chats, alt, failed, a, t)
  {
    if b == [] {
      assert a + b == a;
    } else {
      FirstFoldedStays(chats, alt, failed, a, b[..|b| - 1], t);
      assert (a + b)[..|a + b| - 1] == a + b[..|b| - 1];
    }
  }

  /** A surviving row has its mute and its group mark from itself, or from the first row folded in. */
  ghost predicate KeptFrom(db: Db, after: map<Jid, Chat>, t: Jid, source: Option<Jid>) {
    && t in after && source.Some? && source.value in db.chats
    && forall column :: SameIn(after[t], db.chats[source.value], column)
  }

  function Source(db: Db, alt: map<Jid, Jid>, failed: set<Jid>, scan: seq<Jid>, t: Jid): (r: Option<Jid>) {
    if t in db.chats then Some(t) else FirstFolded(db.chats, alt, failed, scan, t)
  }

  /** For every table, mapping, scan order and set of failing merges. */
  lemma {:induction false} ColumnsAfterMerges(db: Db, alt: map<Jid, Jid>, failed: set<Jid>, scan: seq<Jid>, t: Jid)
    requires Stable(alt) && NoDuplicates(scan)
    requires t in MergeAll(db, alt, failed, scan).chats
    ensures KeptFrom(db, MergeAll(db, alt, failed, scan).chats, t, Source(db, alt, failed, scan, t))
  {
    if scan != [] {
      var before, last := scan[..|scan| - 1], scan[|scan| - 1];
      var mid := MergeAll(db, alt, failed, before);
      CanonicalIdempotent(alt, last);
      if t in mid.chats {
        ColumnsAfterMerges(db, alt, failed, before, t);
        var after, source := MergeAll(db, alt, failed, scan).chats, Source(db, alt, failed, before, t).value;
        forall column ensures SameIn(after[t], db.chats[source], column) {
          assert SameIn(mid.chats[t], db.chats[source], column);
        }
      } else {
        NoneFolded(db, alt, failed, before, t);
        UntouchedBeforeTurn(db, alt, failed, before, last);
      }
    }
  }

  lemma {:induction false} NoneFolded(db: Db, alt: map<Jid, Jid>, failed: set<Jid>, scan: seq<Jid>, t: Jid)
    requires Stable(alt) && NoDuplicates(scan) && Canonical(alt, t) == t
    requires t !in MergeAll(db, alt, failed, scan).chats
    ensures t !in db.chats && FirstFolded(db.chats, alt, failed, scan, t) == None
  {
    if scan != [] {
      var before, last := scan[..|scan| - 1], scan[|scan| - 1];
      CanonicalIdempotent(alt, last);
      NoneFolded(db, alt, failed, before, t);
      if FoldsInto(alt, failed, last, t) {
        UntouchedBeforeTurn(db, alt, failed, before, last);
      }
    }
  }

  predicate Candidate(chats: map<Jid, Chat>, alt: map<Jid, Jid>, j: Jid, t: Jid) {
    j in chats && j.server == HiddenUserServer && FoldsInto(alt, {}, j, t)
  }

  /** t is stored, or all the rows that could become t have the same value. */
  ghost predicate ColumnIsSettled(chats: map<Jid, Chat>, alt: map<Jid, Jid>, t: Jid, column: Column) {
    || t in chats
    || forall i, j :: Candidate(chats, alt, i, t) && Candidate(chats, alt, j, t) ==> SameIn(chats[i], chats[j], column)
  }

  ghost predicate SameColumn(a: Option<Chat>, b: Option<Chat>, column: Column) {
    a.Some? && b.Some? ==> SameIn(a.value, b.value, column)
  }

  /**
   When does a mute, or a group mark, depend on the scan order? All scans leave t with the same
   one exactly when t is stored, or all rows folded into it have the same.
   */
  lemma OrderSettlesColumnIff(db: Db, alt: map<Jid, Jid>, t: Jid, column: Column)
    requires Stable(alt)
    ensures (forall scan, other :: IsScan(scan, db.chats) && IsScan(other, db.chats) ==>
               SameColumn(Left(db, alt, scan, t), Left(db, alt, other, t), column))
            <==> ColumnIsSettled(db.chats, alt, t, column)
  {
    if ColumnIsSettled(db.chats, alt, t, column) {
      forall scan, other | IsScan(scan, db.chats) && IsScan(other, db.chats)
        ensures SameColumn(Left(db, alt, scan, t), Left(db, alt, other, t), column)
      {
        SettledColumnSame(db, alt, scan, other, t, column);
      }
    } else {
      var i, j :| Candidate(db.chats, alt, i, t) && Candidate(db.chats, alt, j, t) &&
          !SameIn(db.chats[i], db.chats[j], column);
      var scan := ScanFrom(db.chats, i);
      var other := ScanFrom(db.chats, j);
      FirstBecomesRow(db, alt, scan, t);
      FirstBecomesRow(db, alt, other, t);
      assert SameIn(Left(db, alt, scan, t).value, db.chats[i], column);
      assert SameIn(Left(db, alt, other, t).value, db.chats[j], column);
      assert !SameColumn(Left(db, alt, scan, t), Left(db, alt, other, t), column);
    }
  }

  lemma SettledColumnSame(db: Db, alt: map<Jid, Jid>, scan: seq<Jid>, other: seq<Jid>, t: Jid, column: Column)
    requires Stable(alt) && IsScan(scan, db.chats) && IsScan(other, db.chats) &&
            ColumnIsSettled(db.chats, alt, t, column)
    ensures SameColumn(Left(db, alt, scan, t), Left(db, alt, other, t), column)
  {
    if Left(db, alt, scan, t).Some? && Left(db, alt, other, t).Some? {
      ColumnsAfterMerges(db, alt, {}, scan, t);
      ColumnsAfterMerges(db, alt, {}, other, t);
      FirstFoldedIsOne(db.chats, alt, {}, scan, t);
      FirstFoldedIsOne(db.chats, alt, {}, other, t);
      var i, j := Source(db, alt, {}, scan, t).value, Source(db, alt, {}, other, t).value;
      assert SameIn(Left(db, alt, scan, t).value, db.chats[i], column);
      assert SameIn(Left(db, alt, other, t).value, db.chats[j], column);
      if t !in db.chats {
        assert Candidate(db.chats, alt, i, t) && Candidate(db.chats, alt, j, t);
      }
    }
  }

  /** The row scanned first becomes t when t is not stored. */
  lemma FirstBecomesRow(db: Db, alt: map<Jid, Jid>, scan: seq<Jid>, t: Jid)
    requires Stable(alt) && IsScan(scan, db.chats) && scan != [] && Candidate(db.chats, alt, scan[0], t) &&
            t !in db.chats
    ensures var left := Left(db, alt, scan, t);
            left.Some? && forall column :: SameIn(left.value, db.chats[scan[0]], column)
  {
    SurvivingRows(db, alt, scan, t);
    ColumnsAfterMerges(db, alt, {}, scan, t);
    var first, rest := scan[..1], scan[1..];
    assert first[..0] == [];
    FirstFoldedStays(db.chats, alt, {}, first, rest, t);
    assert first + rest == scan;
  }

  /**
   So a merge can lose a mute: a conversation with a muted row stays muted exactly when the row
   that its canonical row is made from is muted.
   */
  lemma MuteSurvivesIff(db: Db, alt: map<Jid, Jid>, scan: seq<Jid>, t: Jid)
    requires Stable(alt) && IsScan(scan, db.chats) && t in MergeAll(db, alt, {}, scan).chats
    ensures var source := Source(db, alt, {}, scan, t);
            && source.Some? && source.value in db.chats && Target(alt, source.value) == t
            && (MergeAll(db, alt, {}, scan).chats[t].mutedUntil != 0 <==> db.chats[source.value].mutedUntil != 0)
  {
    ColumnsAfterMerges(db, alt, {}, scan, t);
    FirstFoldedIsOne(db.chats, alt, {}, scan, t);
    var after, source := MergeAll(db, alt, {}, scan).chats, Source(db, alt, {}, scan, t).value;
    assert SameIn(after[t], db.chats[source], Mute);
    if t in db.chats && t.server == HiddenUserServer {
      LoopCanonicalises(db, alt, {}, scan, t);
    }
  }

  /** Two LID chats of one person, one of them muted, and no phone chat: the order decides. */
  lemma MuteDependsOnOrder() returns (db: Db, alt: map<Jid, Jid>, a: Jid, b: Jid, phone: Jid)
    ensures Stable(alt) && IsScan([a, b], db.chats) && IsScan([b, a], db.chats)
    ensures var one, two := Left(db, alt, [a, b], phone), Left(db, alt, [b, a], phone);
            one.Some? && two.Some? && one.value.mutedUntil == -1 && two.value.mutedUntil == 0
  {
    a, b := Jid("1", 0, HiddenUserServer), Jid("2", 0, HiddenUserServer);
    phone := Jid("49", 0, DefaultUserServer);
    alt := map[a := phone, b := phone];
    var muted, unmuted := Chat("A", 0, false, false, "", 0, false, -1), Chat("A", 0, false, false, "", 0, false, 0);
    db := Db(map[a := muted, b := unmuted], [], map[]);
    FirstBecomesRow(db, alt, [a, b], phone);
    FirstBecomesRow(db, alt, [b, a], phone);
    assert SameIn(Left(db, alt, [a, b], phone).value, muted, Mute);
    assert SameIn(Left(db, alt, [b, a], phone).value, unmuted, Mute);
  }

  /** Texts, too, do depend on the order for some tables. */
  lemma NamesDependOnOrder() returns (db: Db, alt: map<Jid, Jid>, a: Jid, b: Jid, phone: Jid)
    ensures Stable(alt) && IsScan([a, b], db.chats) && IsScan([b, a], db.chats)
    ensures var one, two := Left(db, alt, [a, b], phone), Left(db, alt, [b, a], phone);
            one.Some? && two.Some? && one.value.name != two.value.name
  {
    a, b := Jid("1", 0, HiddenUserServer), Jid("2", 0, HiddenUserServer);
    phone := Jid("49", 0, DefaultUserServer);
    alt := map[a := phone, b := phone];
    var left, right := Chat("A", 0, false, false, "", 0, false, 0), Chat("B", 0, false, false, "", 0, false, 0);
    db := Db(map[a := left, b := right], [], map[]);
    FirstOfScan(db, alt, [a, b], phone, Name);
    FirstOfScan(db, alt, [b, a], phone, Name);
  }

  /**
   Why the loop skips rows that are already canonical: merging a row into itself deletes it,
   and its unread count with it.
   */
  lemma SelfMergeLosesTheChat(db: Db, j: Jid)
    requires j in db.chats
    ensures var after := MergeChat(db, j, j);
            j !in after.chats &&
                Unread(after.chats, after.chats.Keys) == Unread(db.chats, db.chats.Keys) - db.chats[j].unread
  {
    var after := MergeChat(db, j, j);
    assert after.chats.Keys == db.chats.Keys - {j};
    UnreadRemove(db.chats, db.chats.Keys, j);
    UnreadSame(db.chats, after.chats, after.chats.Keys);
  }

  /** A merge leaves the message ids and the attachments as they are. */
  lemma MergeKeepsConsistent(db: Db, from: Jid, to: Jid)
    requires Consistent(db)
    ensures Consistent(MergeChat(db, from, to))
    ensures Ids(MergeChat(db, from, to).messages) == Ids(db.messages)
  {
    var moved := MoveMessages(db.messages, from, to);
    forall id ensures id in Ids(moved) <==> id in Ids(db.messages) {
      if id in Ids(moved) {
        var i :| 0 <= i < |moved| && moved[i].id == id;
        assert db.messages[i].id == id;
      }
      if id in Ids(db.messages) {
        var i :| 0 <= i < |db.messages| && db.messages[i].id == id;
        assert moved[i].id == id;
      }
    }
  }
}
