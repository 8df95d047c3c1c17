# ZChat: verified model

ZChat is a WhatsApp client made of a Go daemon and a GTK desktop. This project models the
stateful algorithms around its plumbing in Dafny and proves what holds over all their runs.
`dafny verify dfyconfig.toml` checks everything.

| module | models |
|---|---|
| `AnimCache` | the decoded-image cache: a lazily compacted use log against a textbook LRU, and shared decodes |
| `Like` | search patterns: `escapeLike` against a LIKE matcher (ISO/IEC 9075-2 section 8.5, plus SQLite's ASCII case folding) |
| `Records`, `Tables`, `Store` | chat rows and JIDs; the database tables with their conflict rules; the object that runs the statements |
| `Merge` | folding LID chats onto phone JIDs |
| `MessageLife` | one message over all the daemon's steps |
| `Delivery` | delivery status of sent messages |
| `Paging` | pages of a conversation and the find bar's walk |
| `SyncTracker` | the full sync with its timers |
| `Broker` | the bounded event fan-out |
| `Attach` | tracker, broker queue, event stream and window gate put together |
| `Presence` | typing indicators and their timers |
| `Splice`, `StableSort`, `Sidebar` | the chat list of the window |
| `Replica`, `Session`, `Client` | daemon steps with their events, and the window folding them |
| `Sequences`, `Wrappers` | shared facts about sequences; optional values |

Where the code updates state step by step there is a class whose methods are proved against step
functions; the properties are lemmas over those functions and over whole runs of them. Where an
object has an invariant, its `Valid()` carries it or ties the object to the run of its calls. The
methods of `Store`, `Session` and `Conversation` work on any tables and rows and have no such
condition; what they keep is proved of the runs (`Replica.RunsKeepConsistent`).

## What the proofs found

These hold of the code as it is; each has a lemma with the exact condition or a witness.

- A rebuild of the list during a search copies the search results, a snapshot, over rows that
  later events have updated (`Replica.SearchRebuildAgreesIff`, `Replica.SearchBringsBadgeBack`).
- The daemon's typing updates carry no online flag, and the window clears the typists of a
  direct chat on an update that is not online, so direct chats never show "typing"
  (`Presence.DirectChatNeverShowsTyping`).
- `scrollToMessage` asks for the newest page again when the oldest loaded timestamp is zero
  (`Paging.PageRepeatsIff`).
- A Begin inside `finish()` starts a sync that runs in stage DONE, and a Reset there is undone;
  both are safe exactly when no `finish()` is between its halves (`SyncTracker.BeginSafeIff`,
  `SyncTracker.ResetSurvivesIff`). Logging out and pairing again at that moment does it
  (`SyncTracker.RestartInsideFinish`), and the flag in the store may then disagree with the
  tracker (`SyncTracker.ResetInsideFinish`). The stage invariants are stated for runs where
  neither lands there.
- A client whose queue is full when the sync completes stays on the progress page until a Reset
  gets through or it attaches again after a broken stream (`Attach.CompletionReachesWindowIff`,
  `Attach.StrandedUntilSnapshot`, `Attach.DroppedCompletionHappens`).
- After a send or retry the daemon publishes "sent" even when a receipt has already raised the
  stored status (`Delivery.PublishedStatusMatchesStoreIff`).
- Deleting the last message of a chat leaves its text as the preview
  (`Tables.PreviewAfterDelete`). Deletes that arrive from elsewhere refresh the chat of the JID
  they came with, which for a chat known under a LID is not the chat that lost the message
  (`Replica.DeleteKeepsPreviewIff`, `Replica.StalePreview`).
- A redelivered message raises the unread badge again, so the badge counts messages exactly when
  none was redelivered (`Replica.BadgeCountsMessagesIff`).
- Starting a chat that is not stored is the one step that writes a row without an event: only its
  caller learns of it, in the reply (`Replica.StepKeepsAgreement`).
- A live or sent message becomes the preview of its chat even when it is not the newest
  (`Replica.MessageKeepsPreviewIff`, `Replica.SendKeepsPreviewIff`), and a pin, archive or mute
  made elsewhere under a LID misses the chat stored under the phone JID
  (`Replica.FlagsReachChatIff`).
- Merging LID chats is independent of the scan order for which rows survive, their unread counts,
  archived, pinned and activity (`Merge.OrderDoesNotMatter`). Names and previews are settled
  exactly when the target has one or all candidates agree (`Merge.OrderSettlesTextIff`). Mutes and
  group marks are never combined: they are settled exactly when the target is stored or all rows
  folded into it agree (`Merge.OrderSettlesColumnIff`), so a merge can lose a mute
  (`Merge.MuteSurvivesIff`, `Merge.MuteDependsOnOrder`).

## Assumptions

- Each store method is one atomic step and a transaction is all-or-nothing; database errors are
  modelled only for the merge loop. `UpdateMessageStatus` is a read followed by a write, so its
  results are for calls taken one at a time.
- Rows are listed in rowid order, and the preview query breaks ties by it; the claims about
  previews and pages hold for any tie order.
- The mapping from LIDs to phone JIDs is stable and never maps to another LID.
- A timer fires when it is due, its callback gets the mutex at once, and time does not run past
  a due timer. (In Go, stopping a timer does not recall a callback that already waits for the
  mutex, so a sync whose quiet period was restarted at that very moment can still end.)
- A broken stream loses what was in transit and keeps what the client had received.
- `SetMeta` succeeds: a sync whose flag could not be stored only logs a warning.
- Counters and timestamps are mathematical integers; text is a sequence of characters. In
  `Like`, a NUL character is an ordinary character.
- The image callbacks do not call back into the cache while they run.

## Model

| member | source | states |
|---|---|---|
| `AnimCache.LruIsRecent` | apps/desktop/image.go:52-57 | A textbook 48-entry LRU holds exactly the 48 most recently used distinct paths of any history |
| `AnimCache.OrderTracksRecency` | apps/desktop/image.go:61-85 | For every history: the lazy log lists a prefix of the recency order at least as long as the textbook cache, never exceeds 95 entries, and n touches scan at most 2n log entries (potential 2 * log length) |
| `AnimCache.NeverMissesWhereLruHits` | apps/desktop/image.go:61-85 | For every history, the lazy cache holds whatever a textbook 48-entry LRU would hold |
| `AnimCache.ImageCache.CacheBounded` | apps/desktop/image.go:57-85 | At most 95 images are held after any history of uses |
| `AnimCache.RecencyMeansUsedAfter` | apps/desktop/image.go:61-85 | Earlier in the recency order means used after the last use of the later one |
| `AnimCache.EvictedPathIsOld` | apps/desktop/image.go:80-83 | A path that a touch drops leaves 48 distinct cached paths behind, each used after its own last use, the touched path among them |
| `AnimCache.CompactionResult` | apps/desktop/image.go:66-84 | A compaction leaves exactly the textbook cache, duplicate-free, oldest first, ending with the path just touched |
| `AnimCache.RecencyOlder` | apps/desktop/image.go:69-76 | The backward scan meets paths in recency order: an older entry adds its path at the end unless already seen |
| `AnimCache.ImageCache.TouchAnimCache` | apps/desktop/image.go:61-85 | The touch leaves the log of the extended history, cache keys equal to logged paths, the touched path cached, no cached image altered, and charges what the compaction scans |
| `AnimCache.TouchIsLazy` | apps/desktop/image.go:61-66 | Below 95 entries a touch only appends and scans nothing; at 95 it scans the whole log once |
| `AnimCache.ImageCache.NewestUses` | apps/desktop/image.go:67-76 | The backward scan yields the newest use of each cached path, newest first |
| `AnimCache.ImageCache.Evict` | apps/desktop/image.go:80-83 | Drops the oldest entries from list and cache together until 48 remain |
| `AnimCache.ReverseInPlace` | apps/desktop/image.go:77-79 | The two-index swap loop reverses the list |
| `AnimCache.ImageCache.LoadAnimation` | apps/desktop/image.go:98-108 | A hit runs the callback at once with the image of the last successful landing of its path; a miss queues it behind the one decode of its path or starts that decode; no cached image changes; requests stay answered in order |
| `AnimCache.ImageCache.Land` | apps/desktop/image.go:112-127 | A landing decode runs every waiter of its path once, in request order, all with the same result, on success and on failure; only a success is cached, under its own path, and every other cached image stays what it was; never cached and pending |
| `AnimCache.ImageCache.Remember` | apps/desktop/image.go:119-122 | The image goes under the one path that was decoded; every other path that stays cached keeps its image, and each cached image is the last that landed for its path |
| `AnimCache.ImageCache.RunWaiters` | apps/desktop/image.go:124-126 | The waiter loop answers the whole queue in order |
| `AnimCache.LandKeepsOrder` | apps/desktop/image.go:113-126 | Per path, requests equal answers plus waiters, in order, across a landing decode |
| `AnimCache.ExactlyOnce` | apps/desktop/image.go:98-129 | Once no decode is in flight, each callback has run for a path as often as it asked for it |
| `Like.SearchFindsSubstrings` | apps/daemon/store/store.go:860-866 | For all q and s: s matches "%" + escapeLike(q) + "%" iff q occurs in s up to ASCII case |
| `Like.EscapedPrefix` | apps/daemon/store/store.go:883-886 | An escaped text matches itself and nothing else, whatever pattern follows |
| `Like.LeadingPercent` | apps/daemon/store/store.go:836-841 | A leading % succeeds iff the rest matches some suffix |
| `Like.UnescapeUndoes` | apps/daemon/store/store.go:883-886 | Unescaping undoes escapeLike |
| `Like.EscapeLikeInjective` | apps/daemon/store/store.go:883-886 | escapeLike maps different queries to different patterns |
| `Like.UnescapedSearchIsWrong` | apps/daemon/store/store.go:835-836 | Without escaping, a query of "_" would match a text that does not contain it |
| `Like.SuffixFilter` | apps/daemon/store/store.go:506 | A filter such as %@lid is a suffix test up to case |
| `Like.FoldMeans` | apps/daemon/store/store.go:860-866 | Two characters fold alike iff they are the same or one ASCII letter in both cases |
| `Splice.SpliceRange` | apps/desktop/window.go:655-670 | Reports no change iff the lists are equal; otherwise the slice of applyChatModel is in bounds, the splice yields want, and no single splice removes or inserts fewer |
| `Splice.NoSpliceKeepsMore` | apps/desktop/window.go:652-654 | Longest common prefix and remaining suffix bound what any splice can keep |
| `Splice.KeptEnds` | apps/desktop/window.go:652-654 | Whatever a splice keeps is common to both lists, and what it inserts is forced |
| `Splice.MinimalAmongAllSplices` | apps/desktop/window.go:652-654 | Minimality holds among arbitrary splices, not only runs of want |
| `StableSort.SortedIsStable` | apps/desktop/window.go:605-611 | The order used is pinned first, then newest, equal keys in their old order, and a permutation |
| `StableSort.OrderedMeans` | apps/desktop/window.go:605-611 | The order means: nothing unpinned before something pinned, and of two alike never the older before the newer |
| `StableSort.StableSortUnique` | apps/desktop/window.go:605-611 | A stable sort is unique, so which algorithm sort.SliceStable uses does not matter |
| `Sidebar.ChatItem.CopyChatFrom` | apps/desktop/window.go:546-555 | All fields but the JID are taken over by the existing object |
| `Sidebar.Window.UpsertChat` | apps/desktop/window.go:532-542 | The row under the JID becomes the incoming row, every other row stays, a known chat keeps its object, a rebuild is due |
| `Sidebar.Window.RemoveChat` | apps/desktop/window.go:559-572 | Index and list lose exactly that chat |
| `Sidebar.WithoutItem` | apps/desktop/window.go:565-570 | The removal loop drops the one occurrence and nothing else |
| `Sidebar.Window.OnceEach` | apps/desktop/window.go:532-572 | In every reachable state the list holds each object of the index once and nothing else |
| `Sidebar.TabsPartition` | apps/desktop/window.go:674-682 | The three tabs together show every chat of the list exactly once |
| `Sidebar.TabShows` | apps/desktop/window.go:674-682 | The direct tab shows the unarchived direct chats, the groups tab the unarchived groups, the archive the archived, each in the order of the list |
| `Sidebar.Window.ModelInOrder` | apps/desktop/window.go:605-622 | An up-to-date model holds exactly the chats of its tab, pinned first and then by newest activity |
| `Sidebar.Window.ApplyChatModel` | apps/desktop/window.go:639-650 | The splice leaves the list model equal to the wanted list |
| `Sidebar.Window.RebuildChatModel` | apps/desktop/window.go:586-630 | Without a search the model is the tab's part of the list, both pinned first and then by newest activity, the list a stable sort of what it was, and rows do not change; with one it shows the results, known chats by their own objects, and overwrites their rows |
| `Sidebar.InsertAll` | apps/desktop/window.go:605-611 | The insertion loop computes the stable sort of the snapshot |
| `Sidebar.Window.RebuildTimer` | apps/desktop/window.go:574-584 | After the coalescing timer the model is up to date again, and outside a search in order: pinned first, then newest |
| `Sidebar.Window.SetFilter` | apps/desktop/window.go:721-731 | Switching tabs outside a search leaves the model up to date under the new filter and in order, and changes no row |
| `Sidebar.Window.SetSearchQuery` | apps/desktop/window.go:687-694 | Ending a search brings the sorted, filtered list back and leaves every row alone |
| `Sidebar.Window.SearchAnswered` | apps/desktop/window.go:698-709 | An answer to an older query changes nothing; a current one merges its rows |
| `Sidebar.SearchRebuildKeepsRowsIff` | apps/desktop/window.go:591-603 | A rebuild during a search leaves the rows alone iff no search result for a known chat is out of date |
| `Tables.BatchStoresUnion` | apps/daemon/store/store.go:652-703 | Replayed batches store exactly the union of the ids, keep every stored row and its position, and keep attachments with their messages |
| `Tables.FirstMediaKept` | apps/daemon/store/store.go:652-682 | A stored attachment is never replaced, and of several for one message the first is kept |
| `Tables.FirstRowKept` | apps/daemon/store/store.go:652-656 | Of several rows with one new id, the first is stored |
| `Tables.SyncConversationIdempotent` | apps/daemon/store/store.go:366-385 | Ingesting a history conversation twice in a row equals ingesting it once |
| `Tables.UpsertRefreshIdempotent` | apps/daemon/store/store.go:340-358 | The upsert rule followed by the preview refresh is idempotent on any table |
| `Tables.SyncPreviewIsNewest` | apps/daemon/store/store.go:583-592 | After a sync the preview is the body of a newest stored message of the chat, if it has any |
| `Tables.SyncWritesRow` | apps/daemon/store/store.go:340-358 | A sync writes one row: unread, archived, pinned, mute and group mark as they came, an empty name keeps the stored one, and activity is the later of the two |
| `Tables.SyncKeepsPreview` | apps/daemon/store/store.go:340-358 | Without a stored message an empty preview keeps the stored one, any other replaces it |
| `Tables.NewestIsNewest` | apps/daemon/store/store.go:586 | The preview query answers a message of the chat with the greatest timestamp, and nothing iff there is none |
| `Tables.SyncKeepsConsistent` | apps/daemon/store/store.go:366-385 | A sync keeps ids unique and every attachment with its message, and adds exactly one chat key |
| `Tables.DeleteKeepsConsistent` | apps/daemon/store/store.go:786-804 | A delete removes one message with its attachment; it reports not-found iff nothing changed |
| `Tables.DeleteTakesOneMessage` | apps/daemon/store/store.go:786-804 | A delete takes one message out of the list, the rest stay in their order, and exactly its own attachment goes |
| `Tables.PreviewAfterDelete` | apps/daemon/store/store.go:583-592 | After a delete the preview is a newest remaining body, but stays as it was when no message is left |
| `Tables.NewestOutlivesOthers` | apps/daemon/store/store.go:583-592 | Removing any other message leaves the newest of a chat the newest |
| `Tables.ArchivingUnpins` | apps/daemon/store/store.go:413-446 | Archiving wins over pinning in one call and touches nothing else of the table |
| `Tables.FlagsAreSet` | apps/daemon/store/store.go:413-446 | Each flag that is given is set and each other stays, but archiving unpins; no other column and no other row is written |
| `Tables.FlagsOfUnknownChat` | apps/daemon/store/store.go:413-446 | For a chat that is not stored the call is refused iff it carries a flag, and nothing is written |
| `Tables.TouchOfKnownChat` | apps/daemon/store/store.go:557-576 | A touch of a stored chat: new preview and group mark, a missing name filled in, the badge up by one if asked, activity the later of the two times, the flags as they were, no other row |
| `Tables.TouchOfNewChat` | apps/daemon/store/store.go:557-576 | A touch of an unknown chat leaves its name, preview, time and group mark, unread one or none, unpinned, unarchived, unmuted |
| `Tables.OneColumnWrites` | apps/daemon/store/store.go:583-592 | Clearing the badge, naming a chat and refreshing its preview each write one column of one row |
| `Tables.NothingLost` | apps/daemon/wa/session.go:251-257 | Queued or run inline, every history event is waiting, processed or dropped exactly once, at most 8 events waiting, and none is dropped iff there always was a client to process it |
| `Tables.HistoryInOrder` | apps/daemon/wa/history.go:15-26 | While the queue is never full and there is a client, events are processed in the order they arrived |
| `Tables.HistoryStoresEverything` | apps/daemon/wa/history.go:15-98 | Once the queue is empty the stored ids are exactly the earlier ones and those that the processed events brought, of all arrived events if there always was a client, whatever was reordered, and earlier rows are untouched |
| `Merge.CanonicalIdempotent` | apps/daemon/wa/session.go:451-463 | Resolving a resolved JID changes nothing |
| `Merge.CanonicalMeans` | apps/daemon/wa/session.go:451-463 | A LID that the device has mapped leads to the mapped JID, anything else to itself, without a device part |
| `Merge.MergeConserves` | apps/daemon/wa/session.go:313-343 | For every table, stable mapping, scan order and set of failing merges: no message is lost or leaves its conversation; total unread, and each conversation's unread sum, archived-or, pinned-or and newest activity are kept |
| `Merge.MergeKeepsUnread` | apps/daemon/store/store.go:536-551 | One merge moves no unread count between conversations |
| `Merge.MergeKeepsTotalUnread` | apps/daemon/store/store.go:536-551 | One merge of two different rows keeps the total unread count |
| `Merge.MergeLeavesNoDuplicates` | apps/daemon/wa/session.go:321-338 | No processed row with another home survives, no message is left in it, and only canonical rows are created |
| `Merge.LoopCanonicalises` | apps/daemon/wa/session.go:313-343 | After the loop every LID row is its own canonical row, unless its merge failed |
| `Merge.RowIsConversation` | apps/daemon/wa/session.go:313-343 | With all merges committed, each row has the unread sum, archived-or, pinned-or and newest activity of its whole conversation |
| `Merge.SurvivingRows` | apps/daemon/wa/session.go:313-343 | Which rows survive is decided by table and mapping alone |
| `Merge.MappedLidsMove` | apps/daemon/wa/session.go:313-343 | A LID row that the mapping knows is gone afterwards and its phone JID has a row |
| `Merge.OtherRowsStay` | apps/daemon/wa/session.go:313-343 | A row that is no LID, or a LID that the mapping does not know, stays |
| `Merge.OrderDoesNotMatter` | apps/daemon/wa/session.go:321-338 | Two scan orders leave the same rows with the same unread, archived, pinned and activity |
| `Merge.TextAfterMerges` | apps/daemon/store/store.go:541-546 | For every table, mapping, scan and set of failing merges: a surviving row has its own name, or preview, when it had one, and otherwise the first in scan order among the rows folded into it |
| `Merge.OrderSettlesTextIff` | apps/daemon/wa/session.go:321-338 | All scan orders leave a row with the same name, or preview, iff it has one of its own or all rows that could give it one have the same |
| `Merge.NamesDependOnOrder` | apps/daemon/store/store.go:541-546 | Names do depend on the scan order: a table where they differ |
| `Merge.ColumnsAfterMerges` | apps/daemon/store/store.go:536-551 | For every table, mapping, scan and set of failing merges: a surviving row keeps its own mute and group mark when it was stored, and otherwise has those of the first row folded into it |
| `Merge.OrderSettlesColumnIff` | apps/daemon/wa/session.go:321-338 | All scan orders leave a row with the same mute, or group mark, iff it was stored or all rows folded into it have the same |
| `Merge.MuteSurvivesIff` | apps/daemon/store/store.go:536-551 | A conversation is muted after the merges iff the row that its canonical row is made from was, whatever the others were |
| `Merge.MuteDependsOnOrder` | apps/daemon/store/store.go:536-551 | A table where one scan order leaves the chat muted and the other does not |
| `Merge.SelfMergeLosesTheChat` | apps/daemon/wa/session.go:326-329 | Without the loop's guard, a merge of a row into itself deletes it with its unread count |
| `Merge.MergeKeepsConsistent` | apps/daemon/store/store.go:526-553 | A merge leaves ids and attachments as they are |
| `Delivery.FinalStatus` | apps/daemon/store/store.go:888-916 | After any updates, one at a time: the highest since the last failure, the failure if none followed, or the highest overall with the initial status |
| `Delivery.FinalIsHighest` | apps/daemon/store/store.go:908-915 | Without a failure, updates only raise the status, to the highest seen |
| `Delivery.ReceiptsInOrder` | apps/daemon/store/store.go:888-916 | Read beats delivered, delivered beats sent, sent beats pending, whatever order the updates come in |
| `Delivery.FailureLands` | apps/daemon/store/store.go:891-898 | A failure always lands, and whatever comes next replaces it |
| `Delivery.FailureResets` | apps/daemon/store/store.go:891-898 | A failure forgets everything before it |
| `Delivery.AnyOrderSameStatus` | apps/daemon/wa/session.go:423-447 | Acknowledgement and receipts give the same status in any order |
| `Delivery.UpdatesTouchOneStatus` | apps/daemon/store/store.go:900-915 | In the table, a run of updates changes one row's status to that result and nothing else; no row is added |
| `Delivery.SuccessfulSend` | apps/daemon/wa/session.go:738-830 | A successful send or retry ends as sent, or as the highest receipt, whenever each came and whatever status a retry found |
| `Delivery.RetryStartsPending` | apps/daemon/wa/session.go:799-830 | A retry of a failed message shows it as pending first, then as sent or failed again |
| `Delivery.FailedSend` | apps/daemon/wa/session.go:818-823 | A failed send or retry ends as failed, even after a receipt |
| `Delivery.PublishedStatusMatchesStoreIff` | apps/daemon/wa/session.go:790-830 | The row published after a send or retry carries the stored status iff no receipt was faster than the acknowledgement and the row had none already |
| `Paging.ListMessages` | apps/daemon/store/store.go:766-770 | The reversal loop yields the rows of the query oldest first |
| `Paging.ReversedQueryIsPage` | apps/daemon/store/store.go:744-770 | Any answer to the query, reversed, is a page: chronological, free of repeats, the newest rows before the point, whatever order ties came in |
| `Paging.WalkIsHistory` | apps/daemon/store/store.go:744-770 | However many pages are walked, the list is chronological and free of repeats, and a skipped message shares its timestamp with the oldest of a full page |
| `Paging.OldestFalls` | apps/desktop/find.go:165-173 | The next `before` strictly falls with every page that brings something |
| `Paging.WalkEnds` | apps/desktop/find.go:148-181 | Fewer pages bring something than the table has messages |
| `Paging.DistinctSkipsNothing` | apps/daemon/store/store.go:744-770 | With distinct timestamps, what is not loaded is older than all that is |
| `Paging.WholeHistory` | apps/daemon/store/store.go:744-770 | With distinct timestamps, a walk that meets an empty page has returned exactly the chat |
| `Paging.WalkReach` | apps/desktop/find.go:148-181 | After k more pages the list holds k + 1 full pages or the whole chat |
| `Paging.PageRepeatsIff` | apps/desktop/find.go:165-173 | A page repeats loaded messages iff the oldest loaded timestamp is zero, which loadOlderMessages checks for and scrollToMessage does not |
| `Paging.ZeroTimestampRepeats` | apps/desktop/find.go:165-173 | A walk whose oldest message is stamped zero and whose next page repeats messages |
| `Paging.ScrollIsBounded` | apps/desktop/find.go:146-181 | The walk sends at most its budget of requests, only adds rows in front, and succeeds iff the message ends up loaded |
| `Paging.ScrollAsks` | apps/desktop/find.go:148-181 | A walk that goes on asks for the rows before the oldest; a failed or empty reply, or one for a chat no longer open, ends it with the list as it was, any other goes in front |
| `Paging.ScrollEndsAtOnce` | apps/desktop/find.go:148-181 | A loaded message, an empty list, a spent budget or no client ends the walk without a request |
| `Paging.ScrollFindsWithinBudget` | apps/desktop/find.go:148-181 | With an answering server the message is found iff it lies within the budget of pages |
| `Paging.Conversation.ScrollToMessage` | apps/desktop/find.go:148-181 | The re-entrant method computes that walk and releases stick-to-bottom only when it finds the row |
| `SyncTracker.RunsKeepInv` | apps/daemon/wa/sync.go:42-239 | For every run without Begin or Reset inside finish() or Reset(): stages, flags, timers, stored flag and totals agree; published stages never go back and progress never falls, within [0, 1] |
| `SyncTracker.StepKeepsPublished` | apps/daemon/wa/sync.go:83-118 | Each step keeps published stages, progress, chats and messages monotone since the last Begin or Reset, ending on the current ones |
| `SyncTracker.ClientsKnowTheTotals` | apps/daemon/wa/sync.go:83-114 | In every clean run the last published state carries the chat and message totals of the accepted chunks and the current stage, and is indeterminate iff that is connecting |
| `SyncTracker.ProgressMeans` | apps/daemon/wa/sync.go:97-114 | Progress: nothing before the contacts, a tenth for them, eight equal chunks up to 0.85, then 0.95 and 1 |
| `SyncTracker.StepKeepsTotals` | apps/daemon/wa/sync.go:162-174 | Chunk, chat and message totals equal the sum of the accepted Chunk calls since the last Reset |
| `SyncTracker.DeadlineHolds` | apps/daemon/wa/sync.go:122-132 | However many chunks arrive, an active sync is at most three minutes old, and at three minutes only its end is possible |
| `SyncTracker.EndsAfterQuiet` | apps/daemon/wa/sync.go:176-201 | A sync ends by Reset, at its deadline, or exactly twelve seconds after its last activity, and never by quiet while connecting, when a due callback gets the mutex at once |
| `SyncTracker.CompletedUntilReset` | apps/daemon/wa/sync.go:122-132 | Once completed no step but Reset changes the tracker or publishes anything, and a restart restores completion |
| `SyncTracker.QuietUntilReset` | apps/daemon/wa/sync.go:122-232 | After the end of a sync nothing is published until a Reset, whatever callbacks arrive |
| `SyncTracker.UndisturbedStaysCoherent` | apps/daemon/wa/sync.go:122-239 | With Resets at any time and no effective Begin inside finish(), active and stage agree in every state of every run |
| `SyncTracker.BeginSafeIff` | apps/daemon/wa/sync.go:122-132 | For every such run: a Begin leaves active and stage in agreement for everything that may follow up to the next Begin iff no finish() is between its halves |
| `SyncTracker.ResetSurvivesIff` | apps/daemon/wa/sync.go:219-239 | In every state: a Reset leaves the tracker reset for everything that may follow up to the next Begin iff no finish() is between its halves |
| `SyncTracker.RestartInsideFinish` | apps/daemon/wa/session.go:112-119 | A run that breaks it: log out and pair again while finish() is under way. The second sync is active in stage DONE, its first chunk takes clients back to HISTORY, and its own end repairs the tracker |
| `SyncTracker.ResetInsideFinish` | apps/daemon/wa/sync.go:201-236 | In whatever order the two calls go on, a Reset inside finish() ends completed and Begin does nothing; if the flag had been stored before, the Reset clears it for good |
| `SyncTracker.FullSync.ValidMeans` | apps/daemon/wa/sync.go:42-239 | While its calls form a clean run, an object has all the invariants: active means a stage in progress, a deadline within three minutes and, once connected, a settle timer within twelve seconds; completed means DONE and stored |
| `SyncTracker.FullSync.BeginSync` | apps/daemon/wa/sync.go:122-132 | Afterwards a sync is active or has completed; a running or completed one is untouched, a new one has three minutes; keeps the object tied to the run of its calls, so that ValidMeans applies |
| `SyncTracker.FullSync.OnConnected` | apps/daemon/wa/sync.go:135-144 | Only a sync that waits for the connection moves on, with twelve quiet seconds to go; keeps the object tied to the run of its calls, so that ValidMeans applies |
| `SyncTracker.FullSync.OnContacts` | apps/daemon/wa/sync.go:147-159 | An active sync counts the contacts and restarts its quiet period; an inactive one is untouched and silent; keeps the object tied to the run of its calls, so that ValidMeans applies |
| `SyncTracker.FullSync.OnChunk` | apps/daemon/wa/sync.go:162-174 | An active sync adds to its totals and restarts its quiet period, never the deadline; an inactive one is untouched and silent; keeps the object tied to the run of its calls, so that ValidMeans applies |
| `SyncTracker.FullSync.FinishStart` | apps/daemon/wa/sync.go:186-201 | Goes on iff a sync was active, which no longer is and has no timer left; otherwise nothing changes; keeps the object tied to the run of its calls, so that ValidMeans applies |
| `SyncTracker.FullSync.FinishPersist` | apps/daemon/wa/sync.go:203-209 | The flag is stored while the mutex is free; keeps the object tied to the run of its calls, so that ValidMeans applies |
| `SyncTracker.FullSync.FinishEnd` | apps/daemon/wa/sync.go:211-215 | Completed in stage DONE; after a clean run no sync is active, the flag is stored, and nothing is published until a Reset; keeps the object tied to the run of its calls, so that ValidMeans applies |
| `SyncTracker.FullSync.ResetSync` | apps/daemon/wa/sync.go:219-234 | Everything is back to the start and announced; calls of finish() under way stay under way; keeps the object tied to the run of its calls, so that ValidMeans applies |
| `SyncTracker.FullSync.ResetClear` | apps/daemon/wa/sync.go:236-238 | The flag is cleared after the mutex is released; keeps the object tied to the run of its calls, so that ValidMeans applies |
| `Broker.SubscriberSeesInOrder` | apps/daemon/service/broker.go:28-60 | For every interleaving, received plus queued is an in-order part of what was published while subscribed, gapless iff nothing was dropped, at most 256 waiting |
| `Broker.OfferKeepsFaithful` | apps/daemon/service/broker.go:53-59 | A non-blocking send keeps order and accounts for every drop |
| `Broker.GaplessIff` | apps/daemon/service/broker.go:53-59 | Nothing is missing iff no publish met a full queue |
| `Broker.EachSubscriberAlone` | apps/daemon/service/broker.go:28-60 | For every run with any number of subscribers: ids are handed out once each and every channel is what its own steps make it, whatever the others do |
| `Broker.EverySubscriberSeesInOrder` | apps/daemon/service/broker.go:28-60 | So each of them has an in-order part of what was published from its subscription to its end, gapless iff nothing was dropped |
| `Broker.Hub.Subscribe` | apps/daemon/service/broker.go:28-35 | A new open channel is registered under an id never handed out before |
| `Broker.Hub.Unsubscribe` | apps/daemon/service/broker.go:37-44 | The channel is closed at most once and forgotten; other subscribers are unaffected; repeating is harmless |
| `Broker.Hub.Publish` | apps/daemon/service/broker.go:49-60 | Every subscriber is offered the event once, none of them closed, whatever order the map is walked in |
| `Broker.Hub.SeesInOrder` | apps/daemon/service/broker.go:28-60 | In a valid broker every registered channel is what its own steps of the run of calls make it, and holds an in-order part of what was published since it subscribed |
| `Attach.EventKeepsGated` | apps/desktop/window.go:408-454 | While syncing the chat page is not shown, and only sync events move that flag |
| `Attach.PairingPageShows` | apps/desktop/window.go:371-420 | A QR code and a logout show the pairing page and leave a sync what it is; only the logout disconnects |
| `Attach.ChatPageOpensOnlyWhenDone` | apps/desktop/window.go:408-454 | The chat page opens only in a connected window, and out of a sync only on a stage that is over |
| `Attach.WindowGate.OnConnectionState` | apps/desktop/window.go:408-420 | Keeps the chats hidden while syncing; never ends a sync; opens the chats iff connected outside one; a logout shows the pairing page; otherwise the page stays |
| `Attach.WindowGate.OnSyncState` | apps/desktop/window.go:425-454 | Keeps the chats hidden while syncing; the flag is "stage in progress"; the stage that ends a sync opens the chats of a connected window, any other leaves the page |
| `Attach.WindowGate.HandleStream` | apps/desktop/window.go:371-406 | Working off a stream event by event leaves the syncing flag of the last sync event and never shows the chats while syncing |
| `Attach.StageChangesArePublished` | apps/daemon/wa/sync.go:116-118 | Every change of the stage is published as the last thing a step says |
| `Attach.SnapshotKeepsInv` | apps/daemon/service/service.go:415-419 | A snapshot put between what an earlier stream left and what the queue holds keeps all that is under way ending on the current stage |
| `Attach.StreamKeepsInv` | apps/desktop/client/client.go:73-81 | Handing on, receiving and working off events keep what is under way ending on the current stage |
| `Attach.WindowAgreesWithTracker` | apps/daemon/service/service.go:400-435 | For every interleaving, with any number of broken streams, new attaches and daemon restarts: a drained client whose latest sync event was not dropped is syncing iff the stage is one of the four in progress |
| `Attach.NothingDroppedAgrees` | apps/daemon/service/service.go:400-435 | The same when this stream dropped nothing, and in every reachable state syncing hides the chat page |
| `Attach.StepReachesWindowIff` | apps/daemon/service/broker.go:53-58 | For every interleaving and every tracker step: the window still settles on the tracker's answer iff the client's queue had room or the answer did not change |
| `Attach.CompletionReachesWindowIff` | apps/daemon/service/broker.go:53-58 | The end of a sync reaches the window iff the queue has room for it |
| `Attach.DroppedCompletionStrandsWindow` | apps/daemon/service/broker.go:53-58 | A full queue at the end of an undisturbed sync strands the window |
| `Attach.StrandedOnThisStream` | apps/desktop/window.go:408-454 | On the same stream a stranded window stays so whatever happens short of a Reset: with nothing left to read it is syncing and hides the chats while the stage is DONE |
| `Attach.ResetFreesIff` | apps/daemon/wa/sync.go:219-234 | A Reset frees it iff the queue has room for the news |
| `Attach.StrandedUntilSnapshot` | apps/desktop/client/client.go:41-70 | Whatever breaks and is attached again: short of a Reset, and as long as the daemon lives, the window stays syncing iff it has not worked off the snapshot of a later attach |
| `Attach.ReattachFreesWindow` | apps/desktop/client/client.go:41-70 | A broken stream and a new attach open the chats, with the tracker as it was |
| `Attach.DroppedCompletionHappens` | apps/daemon/service/service.go:400-435 | A run that does it: a client attaches during the finish, falls 256 events behind, and settles on the sync page |
| `Attach.DrainingSettles` | apps/desktop/window.go:425-454 | Working off the queued events leaves the syncing flag of the last sync event |
| `Presence.TimerKeyInjective` | apps/desktop/presence.go:65 | The timer key names one chat and one user, because JIDs hold no NUL |
| `Presence.RunsKeepInv` | apps/desktop/presence.go:31-79 | In every run timers and live sources match one to one and every shown user has one |
| `Presence.ShownHasOneTimer` | apps/desktop/presence.go:31-79 | A shown user has exactly one live timer for that chat, due 12 seconds after the last typing update |
| `Presence.NoStaleIndicator` | apps/desktop/presence.go:14-16 | No indicator outlives its last typing update by more than 12 seconds |
| `Presence.IndicatorGoesOnlyIf` | apps/desktop/presence.go:31-79 | An indicator goes only when withdrawn, when the direct contact goes offline, or exactly when it has aged out |
| `Presence.ShownAfterUpdateIff` | apps/desktop/presence.go:39-56 | An update shows its user iff it says typing or recording and is not an offline update of a direct chat |
| `Presence.UpdateWrites` | apps/desktop/presence.go:31-61 | The name shown is the given one or the user part of the JID; online flag and last-seen time follow a direct contact's own updates and nothing else; other chats keep theirs |
| `Presence.OthersStayShown` | apps/desktop/presence.go:31-61 | Another user of the chat stays shown unless the direct contact goes offline |
| `Presence.NeverShownUnlessOnline` | apps/desktop/presence.go:31-61 | For every run of any updates: a direct contact is never shown unless some update said typing and online at once |
| `Presence.DirectChatNeverShowsTyping` | apps/daemon/wa/presence.go:111-146 | For every run of updates as the daemon publishes them, no direct chat ever shows its contact as typing; a group does |
| `Presence.PresenceView.Schedule` | apps/desktop/presence.go:64-79 | Afterwards the user has exactly one live source in that chat, due in 12 seconds, and nobody lost theirs |
| `Presence.PresenceView.Update` | apps/desktop/presence.go:31-61 | Keeps the invariant of all runs; a typing user gets one live source due in 12 seconds and is shown unless offline; other chats are untouched |
| `Presence.PresenceView.TypingExpired` | apps/desktop/presence.go:69-78 | Keeps the invariant; takes its own user down and nobody else |
| `Replica.ReplicaAgrees` | apps/daemon/wa/session.go:728-734 | For every run of daemon steps, folding the published chat events gives rows that show the stored rows column by column, and the whole table for a client that knew it, unless a chat was started that was not stored |
| `Replica.ReplicaShowsColumns` | apps/daemon/wa/session.go:1036-1048 | For every run: JID, name, unread, archived, pinned, preview, activity, group mark and mute of each row of the client are those of the stored row |
| `Replica.PublishedShowsRow` | apps/daemon/wa/session.go:1036-1048 | Every chat update that a step publishes shows the stored row of its JID, column by column |
| `Replica.MergePublishedShowsRow` | apps/daemon/wa/session.go:330-338 | So does each update of the merge loop at its turn |
| `Replica.StepKeepsAgreement` | apps/daemon/wa/session.go:713-734 | Each single step, merges and deletes included, keeps the replica in step, and complete iff it is not the start of a chat that is not stored |
| `Replica.MergeLoopKeepsAgreement` | apps/daemon/wa/session.go:330-338 | The delete and update events of the merge loop keep the replica in step |
| `Replica.StepPublishesWhatItTouches` | apps/daemon/wa/actions.go:307-317 | A step changes at most one row and publishes that row as it now is, or changes none |
| `Replica.RunsKeepConsistent` | apps/daemon/store/store.go:663-682 | Over insert, sync, merge, send and delete, ids stay unique and no attachment is without its message |
| `Replica.StepNeverLoses` | apps/daemon/store/store.go:345-350 | No step makes a row older or takes its name away |
| `Replica.MergeNeverLoses` | apps/daemon/store/store.go:540-546 | In the merge loop a row only takes rows in, and one merged away is never written again |
| `Replica.MessagesNeverOutrunActivity` | apps/daemon/store/store.go:557-576 | For every run: the activity of a chat is never behind a live or sent message of it while it is stored |
| `Replica.ActivityIsLatestMessage` | apps/daemon/store/store.go:557-576 | Between merges and syncs of the chat its activity is the latest of the first value and the times of its live and sent messages |
| `Replica.StepFrames` | apps/daemon/wa/session.go:381-398 | Which steps, merges and the chat's own sync apart, may write which column: flags only the flag update, activity and group mark only a message, a name only a message when there was none or a resolved one, the badge only a delivery or an opening, the preview only a message or a delete |
| `Replica.FirstMessageOpensChat` | apps/daemon/wa/session.go:548-566 | The first live message of an unknown chat leaves its name, text, time and group mark, unread one iff incoming, unpinned, unarchived, unmuted |
| `Replica.SmallSteps` | apps/daemon/service/service.go:166-181 | Opening a chat leaves no badge, a resolved name is written unless empty or bare, a started chat gets an empty row only when none is stored |
| `Replica.SendWritesMessage` | apps/daemon/wa/session.go:941-968 | An acknowledged send gives its message the server's time, the identity it was sent with and at least the status sent, and changes no other message |
| `MessageLife.MessageLivesItsOwnLife` | apps/daemon/store/store.go:526-916 | For every run of steps on any table: the row under an id is what the steps that name the id, and the merges of its chat, make of it alone |
| `MessageLife.StepOnRow` | apps/daemon/store/store.go:652-944 | For every single step: it inserts, rewrites, moves or deletes the row under an id as told, and leaves every other row alone |
| `MessageLife.StaysUntilDeleted` | apps/daemon/store/store.go:786-916 | For every run: a message stays until it is deleted, text, kind, quote, direction and forwarding mark never change, and its status is the outcome of its own updates |
| `MessageLife.StoredIff` | apps/daemon/store/store.go:652-804 | For every run: an id is stored iff it came, live, sent or by history, after it was last deleted |
| `MessageLife.FirstInIsFirst` | apps/daemon/store/store.go:652-656 | Of several rows of a batch with one id, the one stored is the first |
| `Replica.UnreadCountsDeliveries` | apps/daemon/store/store.go:557-576 | Between merges, syncs and openings, the badge grows by exactly the incoming deliveries |
| `Replica.DeliveryCountsStoredIff` | apps/daemon/wa/session.go:548-566 | One delivery raises the badge by the rows it stores iff its id is new |
| `Replica.BadgeCountsMessagesIff` | apps/daemon/wa/session.go:548-566 | For every run without merge, sync or opening of the chat: the badge grows by the messages its deliveries stored iff none of them was a redelivery |
| `Replica.DeleteKeepsPreviewIff` | apps/daemon/wa/actions.go:320-353 | A delete keeps a chat's preview current iff its JID names that chat, or the message was not its newest, or the last, or the next body is the same |
| `Replica.StalePreview` | apps/daemon/wa/actions.go:320-353 | A table and a delete under a LID that canonicalises to the chat, after which the preview still shows the deleted message |
| `Replica.MessageKeepsPreviewIff` | apps/daemon/store/store.go:557-576 | A live message leaves the preview of its chat right iff it is new and newer than all of the chat, or there is none, or the newest has the same body |
| `Replica.SendKeepsPreviewIff` | apps/daemon/wa/session.go:941-968 | An acknowledged send leaves the preview right iff with the server's timestamp it is the newest of its chat or the newest has the same body |
| `Replica.FlagsReachChatIff` | apps/daemon/wa/actions.go:307-317 | A flag change from elsewhere reaches its chat iff its JID is the canonical one or it would have changed nothing, and is lost altogether when no row is stored under that JID |
| `Replica.SearchRebuildAgreesIff` | apps/desktop/window.go:591-603 | During a search a rebuild keeps the replica in step iff every result for a known chat is the stored row |
| `Replica.SearchBringsBadgeBack` | apps/desktop/window.go:591-603 | Search, open an unread chat, rebuild: the badge is back although store and event say read |
| `Store.Store.UpsertChat` | apps/daemon/store/store.go:340-358 | The method leaves the rows the upsert rule gives |
| `Store.Store.TouchChat` | apps/daemon/store/store.go:557-576 | The method leaves the rows the touch rule gives, of which TouchOfKnownChat, TouchOfNewChat and ActivityIsLatestMessage speak |
| `Store.Store.SetChatFlags` | apps/daemon/store/store.go:413-446 | The method leaves the rows and the result the flag update gives |
| `Store.Store.InsertMessages` | apps/daemon/store/store.go:686-703 | The batch loop inserts every message in order |
| `Store.Store.SyncConversation` | apps/daemon/store/store.go:366-385 | The three statements leave the tables the sync function gives |
| `Store.Store.NewestMessage` | apps/daemon/store/store.go:586 | The scan finds the newest row of the chat |
| `Store.Store.DeleteMessage` | apps/daemon/store/store.go:786-804 | Attachment and row go together, or both stay and not-found is reported |
| `Store.Store.MergeChat` | apps/daemon/store/store.go:526-553 | The three statements leave the tables the merge function gives |
| `Store.Store.LIDChats` | apps/daemon/store/store.go:505-521 | Every LID row is listed once |
| `Store.Store.UpdateMessageStatus` | apps/daemon/store/store.go:890-916 | The read followed by the write leaves the rows and the result of the status rule |
| `Session.Session.MergeLIDChats` | apps/daemon/wa/session.go:313-343 | The loop performs the merge step for the order the query answered |
| `Session.Session.SetFlags` | apps/daemon/wa/actions.go:307-317 | Flags, then the chat event, or neither |
| `Session.Session.OnMessage` | apps/daemon/wa/session.go:381-398 | A live message is stored, counted and announced |
| `Session.Session.DeleteMessage` | apps/daemon/wa/actions.go:320-335 | Delete, preview refresh and event, or nothing when the message is unknown |
| `Session.Session.OpenChat` | apps/daemon/service/service.go:166-181 | Opening a chat clears and announces its badge only when there is one |
| `Session.Session.SyncHistory` | apps/daemon/wa/history.go:81-93 | A history conversation is ingested, then announced |
| `Session.Session.BackfillName` | apps/daemon/wa/session.go:354-375 | A resolved name is stored and announced; an empty or bare one is skipped |
| `Session.Session.FinishSend` | apps/daemon/wa/session.go:941-968 | Timestamp, sent status, sender and preview are written, then the chat is announced |
| `Session.Session.React` | apps/daemon/wa/actions.go:251-253 | The reaction is written to its message; no chat event is published |
| `Session.Session.StartChat` | apps/daemon/wa/session.go:713-721 | A missing chat row is created without an event |
| `Client.OnChatEvents` | apps/desktop/window.go:382-406 | Working off a stream of chat events leaves the rows of the fold in the window |

## Left out

- GTK widgets, row binding, selection, dialogs, scrolling and the pulse animation: only the list model, as a sequence, and the page name are modelled.
- Stepping through find matches (`stepMatch`) and status text: one-line index arithmetic and formatting.
- whatsmeow, gRPC and protobuf: calls are inputs that succeed or fail; names, group info and contact lookups are parameters.
- SQL text, pragmas, the reader pool and column migration: each statement is modelled by its effect. The `meta` table holds only the sync flag, which is a field of `SyncTracker.FullSync`.
- Media download and upload, avatars, notifications and forwarding; of a reaction only the write to its row.
- The initial chat fetch of the window (`loadChats`), which can race with events: the replica claim starts from rows that agree.
- The name cache and the contact counts between published states.
- `SyncState` detail texts and the truncation of counters to 32 bits.
- The search entry's trimming and the ranking of search results by the daemon.
- Message events: only the chat events that feed the sidebar are modelled, with sends as their status updates and their chat event.
- Revoking a message for everyone before it is deleted locally.
