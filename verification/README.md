# Verified models of chat histories, message rows, the MCP runtime and configuration

The project models, in Dafny 4.11, the parts of the backend where state is kept in
more than one place or changed in several steps, and proves what those parts are
relied on for:

- **Chat histories** (`Forest`, `Splice`, `History`, `Deletion`, `DeletionOrder`, `Merge`, `Contents`,
  `Completion`, `Runs`). A history is a dict of messages with `parentId` on the
  child, `childrenIds` on the parent and a `currentId` cursor. A history is a
  *forest* when no parent dangles, every `childrenIds` list is the exact
  duplicate-free inverse of `parentId`, and no message is its own ancestor.
  Deletion, merge, upsert, cursor repair and the chat-completion handler are
  modelled; the main result is that every run keeps the history a forest.
- **Message rows** (`Rows`, `DualWrite`, `RowContents`, `Requests`, `Healing`). The `chat_message` table is a
  second copy of every history, keyed by `{chat_id}-{message_id}`. It refines the
  JSON in every run, and the repair of missing rows converges.
- **The MCP server actor** (`Actor`, `BoundedLog`). A step system for the request
  queue, the runner, start and stop, with the interleavings that can drop a
  request included rather than assumed away.
- **The registry** (`Registry`, `RegistryLog`). The write protocol over a directory that can lose
  its process at any step, and power with unsynced data.
- **Configuration** (`ConfigTree`, `ConfigStartup`, `ConfigFlatten`, `ConfigKeys`), **file search** (`Glob`),
  **channel membership** (`Channels`) and **access decisions** (`Access`).

`Prelude` holds an option type and sequence facts. Where the source updates fields
in place the model is a class whose methods are proved equal to a function or
relation on values; the laws are lemmas about those. Every lemma switches Dafny's
automatic induction off.

## Findings

Where the code does not keep what it is relied on for, the exact condition is proved.

- Deleting from a history whose links form a cycle need not terminate
  (`Deletion.SelfParentDiverges`). It terminates exactly when the last-child walk over
  the survivors meets no message twice, which as many steps as there are survivors
  decide (`Deletion.DeletionHaltsIff`); from a forest it always does.
- Merging two acyclic histories can produce a cycle. For a given pair that happens
  exactly when the walk up from some message sent without its parent does not end
  (`Merge.MergeIsAcyclicIff`); an acyclic incoming history is safe for everything that
  may be stored exactly when it contains the parents it names (`Merge.MergeIsSafeIff`).
- Two chats can share a row exactly when one chat id, followed by a dash, begins the
  other (`Rows.KeysCollideIff`); ids of one length cannot.
- An update that sends a message without its `parentId` key leaves rows and JSON
  different exactly when that message was stored with a parent
  (`DualWrite.UpdateMirrorsIff`).
- One self-healing call may return a map that the JSON could complete further: exactly
  when the JSON holds the parent of a message just fetched and that parent is neither a
  row nor fetched (`Healing.ReturnedMapIsCompleteIff`, `Healing.OneCallSettlesIff`).
- A request can be taken from the actor's queue and never answered: the process exit is
  seen together with the request, a stop lands between taking and serving it, or a
  getter left behind by an earlier stop takes it. Once the actor is quiet these are
  exactly the requests that are still pending, unless their callers gave up
  (`Actor.StrandedIff`, `Actor.DoubleWakeUpDropsRequest`).
- The ready event is not cleared by a restart: starting a server whose runner was ready
  before and is not now fails at once, with the runner alive, whether it waits for the
  restart or is opening its session again (`Actor.StartFailsAtOnceIff`).
- After a failed registry write the cached document differs from the disk exactly
  when it was cached and the failure came before the replacement
  (`Registry.CacheAfterFailure`, `Registry.DivergedIff`). What was reported as failed
  becomes durable with the next write (`Registry.RejectedChangeBecomesDurable`).
- Appending text in two chunks differs from appending it whole exactly when the second
  chunk ends every line and an earlier part that ended with another break had been put
  aside, or when the cut falls inside `\r\n`; the blank line which that adds does not show
  only if 500 lines follow or everything kept before it is blank
  (`BoundedLog.TwoChunksIff`). Text is lost exactly when more than one part of a split
  is no line (`BoundedLog.NothingIsLostIff`).
- `lines(k)` returns everything for every limit of 0 or below (`BoundedLog.LinesAreLast`).
- The repair of flattened dicts restores a dict exactly when no dict inside it is empty
  and every leaf stands at a path that is read back
  (`ConfigFlatten.RepairInvertsFlattenIff`). Of a plain dict those are the paths without
  dots. Below a connection that begins with a number the connection has to be that
  number; below any other, a field name has to begin the next part of the path and none
  may begin a later part (`ConfigFlatten.PathReturnsIff`). So a custom header named like
  a field is not restored: below connection `api` it becomes a field of `api.headers`
  (`ConfigFlatten.HeaderIsLost`, `ConfigFlatten.HeaderIsMisread`).
- The present migration knows ten of the eleven dict keys and keeps those dicts whole,
  an empty one too (`ConfigFlatten.KnownDictIsKept`), and start-up leaves them alone
  (`ConfigFlatten.StartUpKeepsDict`). It takes apart only a dict at
  `web.search.linkup_search_params`, whose known name lies under `rag.web`. The inverse
  (`ConfigFlatten.RepairUndoesWalkIff`) speaks of that key, and of tables written without
  the known names.
- The list of users with access contains pending users when the grant is personal
  but not when it is public (`Access.UsersWithAccess`), and a row that everyone may
  write can be listed read-only (`Access.PublicWriteIsListedReadOnly`).

## Model

| member | source | states |
|---|---|---|
| Forest.AcyclicIffGrounded | backend/open_webui/models/chats.py:763-800 | a set of parent links has no cycle iff every walk up ends (pigeonhole over the messages visited) |
| Forest.EndsIffNeverReturns | backend/open_webui/models/chats.py:796-798 | in any set of links a walk ends iff it meets no message twice, and iff it has ended one step past the number of messages |
| Forest.AddLeaf | backend/open_webui/models/chats.py:836-843 | a new message below a stored one, or a new root, keeps the links closed and acyclic |
| History.ChatHistory.DeleteMessage | backend/open_webui/models/chats.py:763-800 | for every history on which the descent stops: the survivors with their new parents and child lists, the dict order, the returned ids and the cursor are those of the deletion; a missing id changes nothing |
| History.ChatHistory.Bypass | backend/open_webui/models/chats.py:769-785 | the deleted message's parent and grandchildren point at each other, everything else is as it was |
| History.ChatHistory.SetParents | backend/open_webui/models/chats.py:784-785 | exactly the listed messages get the new parent |
| History.ChatHistory.Descend | backend/open_webui/models/chats.py:796-798 | the loop stops at the place where the last-child descent from the start rests |
| History.ChatHistory.PlaceCursor | backend/open_webui/models/chats.py:790-799 | the cursor is null or the resting place of the descent from the parent, or from the last root |
| History.ChatHistory.UpsertMessage | backend/open_webui/models/chats.py:803-846 | patch of a stored message, or a new one whose parent may be the first message that lists it and whose role is never blank; the cursor moves to it |
| Contents.PatchWritesGivenKeys | backend/open_webui/models/chats.py:806-810 | upserting a stored message writes exactly the keys that are given, touches no other message and moves the cursor to it |
| Contents.NewMessageIsFilledIn | backend/open_webui/models/chats.py:811-846 | a new message is appended with content and children as given, the clock for a missing time, the given parent or the first message that lists it, and a role that is given, that of the output, or the other side of its parent's |
| History.RoleFor | backend/open_webui/models/chats.py:824-837 | the role of a new message is never blank |
| History.ChatHistory.LatestLeaf | backend/open_webui/models/chats.py:396-408 | the loop finds the first leaf, in dict order, among those with the largest timestamp, or none exists |
| History.ChatHistory.RepairCurrentId | backend/open_webui/models/chats.py:364-414 | only the cursor changes, only if it was unsound, and then to the latest leaf; the result tells whether it moved |
| Contents.RepairRule | backend/open_webui/models/chats.py:364-414 | the repair leaves a cursor on a named message with a role that is no bad leaf; any other moves to the latest childless message with a role, the first of these in dict order |
| Splice.SpliceKeepsAncestors | backend/open_webui/models/chats.py:784-788 | hanging the grandchildren one family up keeps the ancestor relation between any two survivors, both ways |
| Deletion.GrandchildrenAreExact | backend/open_webui/models/chats.py:770-776 | in a forest the grandchildren list holds each message whose parent is a child, once |
| Deletion.DeleteKeepsForest | backend/open_webui/models/chats.py:763-788 | deleting any message of a forest removes exactly it and its children and leaves a forest |
| Deletion.DeleteKeepsAncestors | backend/open_webui/models/chats.py:763-788 | the ancestor relation between every two survivors is exactly what it was |
| Deletion.DescentReachesLeaf | backend/open_webui/models/chats.py:790-799 | in a forest the descent from any message stops, and only at a leaf at or below it |
| Deletion.DeleteTerminates | backend/open_webui/models/chats.py:796-798 | a deletion from a forest always terminates |
| Deletion.DeleteLeavesCursorOnLeaf | backend/open_webui/models/chats.py:790-799 | the cursor is null iff nothing is left; otherwise a leaf at or below the deleted message's parent, or below some root |
| DeletionOrder.ParentListOrder | backend/open_webui/models/chats.py:769-785 | the deleted message's parent then lists the other children as they stood, after them the grandchildren, those of an earlier child first and those of one child as they stood |
| DeletionOrder.RestIsUntouched | backend/open_webui/models/chats.py:763-788 | contents, dict order and all other child lists stay; only grandchildren get another parent, that of the deleted message |
| DeletionOrder.CursorBelowParent | backend/open_webui/models/chats.py:790-799 | the cursor is reached from the last grandchild, without any from the last remaining sibling, by always taking the last child; it is the parent if that has no children left |
| DeletionOrder.CursorBelowLastRoot | backend/open_webui/models/chats.py:790-799 | after deleting a root it is reached so from the root that is last in dict order |
| DeletionOrder.LastOnesExist | backend/open_webui/models/chats.py:769-785 | there is a last grandchild if there is any, else a last sibling if there is any |
| Deletion.DescentHaltsIff | backend/open_webui/models/chats.py:796-798 | for every history, forest or not: the descent stops iff it has stopped after as many steps as there are messages, iff no message on its way is met again |
| Deletion.DeletionHaltsIff | backend/open_webui/models/chats.py:763-800 | a deletion from any history terminates iff that holds of the survivors, from where the descent starts |
| Deletion.SelfParentDiverges | backend/open_webui/models/chats.py:796-798 | a family that fails: a childless message whose parent lists itself last |
| Merge.MergeHistory | backend/open_webui/models/chats.py:741-760 | the two loops yield the union in dict order with every child list refiled by parent, and the cursor rule |
| Merge.RebuildChildren | backend/open_webui/models/chats.py:747-752 | emptying and refilling the lists files each message exactly once under its parent, in dict order |
| Merge.FileUnderParent | backend/open_webui/models/chats.py:749-752 | one message is appended to its parent's list and to no other |
| Merge.MergeRebuildsLinks | backend/open_webui/models/chats.py:741-760 | for any two histories: child lists are the exact duplicate-free inverse of parents, the ids are the union, the cursor is null or present |
| Merge.IncomingCursorWins | backend/open_webui/models/chats.py:754-758 | the cursor is the incoming one if it is the id of a message of either history, else the stored one if that is, else null |
| Merge.IncomingMessagesWin | backend/open_webui/models/chats.py:743-748 | every merged message is the incoming one where one was sent, else the stored one, but for its child list |
| Merge.MergeOrder | backend/open_webui/models/chats.py:743-752 | stored ids keep their order, new ones follow as they were sent, and every child list is in that order |
| Merge.MergeIsIdempotent | backend/open_webui/models/chats.py:741-760 | merging the same incoming history a second time changes nothing |
| Merge.MergeIsAcyclic | backend/open_webui/models/chats.py:743-752 | acyclic inputs and a parent-closed incoming history give an acyclic result, even where they disagree on a parent |
| Merge.MergeKeepsForest | backend/open_webui/models/chats.py:741-760 | closed acyclic inputs merge to a forest |
| Merge.MergeIsAcyclicIff | backend/open_webui/models/chats.py:741-760 | for any two acyclic histories the merge is acyclic iff the bounded walk up from each message sent without its parent ends |
| Merge.OpenMergeCanLoop | backend/open_webui/models/chats.py:743-752 | for every incoming history and every message sent without its parent there is a stored forest that the merge turns into a cycle |
| Merge.MergeIsSafeIff | backend/open_webui/models/chats.py:741-760 | an acyclic incoming history never closes a cycle, whatever acyclic history is stored, iff it contains the parents it names; any incoming history keeps every forest a forest iff it is closed and acyclic |
| Completion.SaveMessage | backend/open_webui/models/chats.py:953-960 | repair followed by upsert is the upsert alone |
| Completion.BuildNewChat | backend/open_webui/main.py:1252-1304 | the handler's loop builds the new-chat history |
| Completion.FollowUp | backend/open_webui/main.py:1411-1523 | the sequence of upserts, with its link loops, yields the follow-up history |
| Completion.SavePlaceholders | backend/open_webui/main.py:1489-1513 | one upsert per named entry, in order |
| Runs.FirstUpsertBreaksSymmetry | backend/open_webui/main.py:1412-1418 | after the first upsert of a new user message with a parent the history is not a forest |
| Runs.FollowUpKeepsForest | backend/open_webui/main.py:1411-1523 | a whole follow-up, new or regenerating, keeps the history a forest and adds exactly the user message and the answers |
| Runs.FollowUpPlacesMessages | backend/open_webui/main.py:1441-1503 | the user message is where it was or where it was sent, each answer is below it, nothing else moves |
| Runs.FollowUpCursor | backend/open_webui/main.py:1489-1513 | the cursor ends on the last answer, where the repair leaves it |
| Runs.NewChatIsForest | backend/open_webui/main.py:1252-1304 | a new chat is a forest of exactly the user message and its answers |
| Runs.NewChatCursor | backend/open_webui/main.py:1292-1295 | its cursor is null iff it is empty, else present |
| Contents.NewChatContents | backend/open_webui/main.py:1252-1304 | the user message as sent, listing the answers in their order, then the empty answers of the assistant; the cursor on the first of them, else on the user message |
| Contents.FollowUpContents | backend/open_webui/main.py:1411-1523 | every answer of a follow-up is an empty one of the assistant below the user message, which lists what it listed and then the new answers in the order of the call; nothing else changes but a new user message's parent |
| Contents.NewUserIsAppended | backend/open_webui/main.py:1412-1440 | a new user message is stored as sent and its parent lists it last |
| Contents.KnownUserIsPatched | backend/open_webui/main.py:1412-1418 | a follow-up on a stored user message writes what was sent of it |
| Runs.StepKeepsGood | backend/open_webui/models/chats.py:740-846 | follow-up, deletion, repair and closed acyclic merge each keep forest, dict and a null-or-present cursor |
| Runs.RunsKeepForest | backend/open_webui/main.py:1250-1523 | in every run from a new chat, after every request, the history is a forest with a null-or-present cursor |
| Runs.RunsCanDelete | backend/open_webui/models/chats.py:989-1035 | every deletion met in a run terminates |
| Runs.RepairRestoresCursor | backend/open_webui/models/chats.py:364-414 | in a non-empty forest with roles the repair leaves the cursor on a stored message, wherever it was |
| Runs.RepairIsIdempotent | backend/open_webui/models/chats.py:364-414 | repairing a repaired history moves nothing |
| Rows.KeyInjective | backend/open_webui/models/chat_messages.py:221-225 | composite keys of chats with ids of one length are equal only for the same chat and message |
| Rows.KeysCanCollide | backend/open_webui/models/chat_messages.py:221-225 | message `b-c` of chat `a` and message `c` of chat `a-b` share a row |
| Rows.KeysCollideIff | backend/open_webui/models/chat_messages.py:221-225 | two different chats can share a row iff one id and a dash begin the other |
| Rows.UpsertRowLinks | backend/open_webui/models/chat_messages.py:223-290 | one row upsert changes one link of one chat and no other chat |
| Rows.BackfillLinks | backend/open_webui/models/chats.py:848-863 | a backfill writes exactly the messages with a role, over what was there |
| Rows.DeleteRowLinks | backend/open_webui/models/chat_messages.py:471-487 | deleting rows removes exactly those ids of that chat |
| Rows.RowsMap | backend/open_webui/models/chat_messages.py:331-392 | the loops yield None for no rows, else the collected messages with children filed by parent |
| Rows.LinkChildren | backend/open_webui/models/chat_messages.py:373-390 | each message is filed once under its parent; a blank parent id has no children |
| Rows.RebuiltMap | backend/open_webui/models/chat_messages.py:331-392 | for any row order the map has the stored ids and parents, and child lists that are their duplicate-free inverse |
| DualWrite.ChatStore.InsertNewChat | backend/open_webui/models/chats.py:416-469 | both tables after an insert |
| DualWrite.ChatStore.SaveMessage | backend/open_webui/models/chats.py:936-987 | both tables after an upsert |
| DualWrite.ChatStore.DeleteMessage | backend/open_webui/models/chats.py:989-1035 | both tables after a deletion, backfill before row deletion |
| DualWrite.DeletingNothingRepairs | backend/open_webui/models/chats.py:989-1010 | deleting a message that is not there commits the cursor repair and nothing else |
| DualWrite.ChatStore.Backfill | backend/open_webui/models/chats.py:848-863 | the loop upserts every message with a role in dict order |
| DualWrite.ChatStore.Reconcile | backend/open_webui/models/chats.py:865-874 | every message with a role is upserted; one without the `parentId` key leaves the parent of an existing row |
| DualWrite.ChatStore.UpdateChat | backend/open_webui/routers/chats.py:1406-1439 | the update endpoint: merge, commit, then reconcile every message of the merge |
| DualWrite.UpdateMirrorsIff | backend/open_webui/routers/chats.py:1406-1439 | an update keeps rows and JSON in step iff every message sent without its key is new or was a root |
| DualWrite.AgreeingKeysDoNotMatter | backend/open_webui/models/chat_messages.py:240-241 | where the rows already agree it makes no difference to any write whether the key is there |
| DualWrite.StepMirrors | backend/open_webui/models/chats.py:936-1035 | every insert, upsert, delete and agreeing update keeps rows and JSON equal in ids and parents, for all chats at once |
| DualWrite.RunsMirror | backend/open_webui/models/chats.py:416-1035 | so does every run from empty tables |
| DualWrite.RowsRefineJson | backend/open_webui/models/chats.py:416-1035 | in every state of every run, also between the saves of a follow-up, the map rebuilt from the rows in any order has the JSON's ids and parents, and its child sets iff the JSON links are symmetric |
| RowContents.RebuiltCarriesJson | backend/open_webui/models/chat_messages.py:221-266 | in every state of every run the message rebuilt from its row has the role and content of the JSON message and the time of the write that created the row |
| RowContents.RebuiltChildrenInRowOrder | backend/open_webui/models/chat_messages.py:374-392 | the children of a rebuilt message stand in the order of their rows |
| Requests.FollowUpIsItsSaves | backend/open_webui/main.py:1411-1523 | the saves that a follow-up makes, one after the other, are the follow-up |
| Requests.RequestKeepsSound | backend/open_webui/models/chats.py:416-1035 | a new chat, a follow-up as its saves, a deletion and a closed update each keep rows and JSON in agreement and every history a forest |
| Requests.RebuiltIsJson | backend/open_webui/models/chats.py:416-1035 | after every request of every run the map rebuilt from the rows of any chat has the ids, parents, child sets, roles and contents of the JSON, and both are forests |
| Healing.GetMessagesMap | backend/open_webui/models/chats.py:876-927 | what the read path returns and writes in each of its cases: the map built from the rows in some order with the fetched JSON messages laid over it, or the JSON; other chats untouched |
| Healing.HealFrom | backend/open_webui/models/chats.py:892-914 | the returned map is the one from the rows with every missing parent of the JSON laid over it as it stands; the table gains those with a role |
| Healing.ReadContents | backend/open_webui/models/chats.py:892-914 | a missing parent is returned as it stands in the JSON, with content and child list; everything else has the role, content and parent of its row |
| Healing.SettledIffNothingHealable | backend/open_webui/models/chats.py:728-738 | nothing is healable iff every named parent is a row, absent from the JSON, or without a role |
| Healing.HealShrinksGap | backend/open_webui/models/chats.py:900-912 | a call that finds a healable gap strictly grows the rows and shrinks the gap |
| Healing.HealingConverges | backend/open_webui/models/chats.py:876-927 | after as many calls as the JSON has messages without rows nothing is left to heal, roles or not |
| Healing.HealingAddsAncestors | backend/open_webui/models/chats.py:876-927 | no number of calls changes an original row's parent; only JSON ancestors of original rows, with a role, are added |
| Healing.HealedRowsAreClosed | backend/open_webui/models/chats.py:876-927 | over a JSON without dangling parents and with roles, the healed rows are closed under parents |
| Healing.ReturnedMapIsCompleteIff | backend/open_webui/models/chats.py:900-914 | the map that one call returns has no gap the JSON could fill iff the parent of each fetched message is a row, fetched too, or not in the JSON |
| Healing.OneCallSettlesIff | backend/open_webui/models/chats.py:848-863 | one call is enough for the rows iff the same holds of the messages with a role |
| Healing.OneCallLeavesGap | backend/open_webui/models/chats.py:900-914 | a family that fails: two consecutive ancestors are missing |
| Actor.FailPendingLoop | backend/open_webui/mcp_runtime/supervisor.py:251-256 | the loop empties the queue, fails exactly the pending futures in it, leaves the others and balances the unfinished count |
| Actor.StepKeepsInv | backend/open_webui/mcp_runtime/supervisor.py:122-277 | every step keeps order, account, state-place agreement and the restart bound |
| Actor.RequestsAreConserved | backend/open_webui/mcp_runtime/supervisor.py:220-263 | in every run each admitted request is in exactly one of queued, in hand, dropped, settled; settled ones are done, the others unanswered; the queue is left in admission order |
| Actor.FuturesAreSetOnce | backend/open_webui/mcp_runtime/supervisor.py:239-256 | a future that is done keeps its outcome for the rest of the run |
| Actor.RunDropsIff | backend/open_webui/mcp_runtime/supervisor.py:221-230 | the record of dropped requests holds exactly those that one of the three dropping steps dropped |
| Actor.StrandedIff | backend/open_webui/mcp_runtime/supervisor.py:221-263 | in `failed` and `stopped` an admitted request is still pending iff some step dropped it and its caller did not cancel it |
| Actor.AnsweredIff | backend/open_webui/mcp_runtime/supervisor.py:232-245 | in every run a future is answered iff its call returned and its caller had not cancelled it before; one that was never served is never answered |
| Actor.FailedIff | backend/open_webui/mcp_runtime/supervisor.py:239-277 | it has failed iff its call raised or was cancelled, or the session closed or a stop ended while it was queued, its caller not having cancelled it before |
| Actor.ServedInOrder | backend/open_webui/mcp_runtime/supervisor.py:220-245 | requests are served in admission order |
| Actor.FailureEndsSession | backend/open_webui/mcp_runtime/supervisor.py:239-263 | after a call that raises, an exit or a break no further request is taken or served before another session is opened |
| Actor.OrderlyRunResolvesAll | backend/open_webui/mcp_runtime/supervisor.py:220-277 | unless an exit is seen together with a request, a stop lands between taking and serving, or a getter left behind takes one, every admitted request is queued, in hand or resolved, and resolved once the actor is quiet; idle servers may be stopped |
| Actor.QuietActorHasResolvedAll | backend/open_webui/mcp_runtime/supervisor.py:173-185 | in `failed` and `stopped` the queue is empty and every request not dropped is resolved |
| Actor.DroppedIsNeverAnswered | backend/open_webui/mcp_runtime/supervisor.py:221-230 | a dropped request is never answered by the actor in any later state |
| Actor.DoubleWakeUpDropsRequest | backend/open_webui/mcp_runtime/supervisor.py:223-229 | from any idle wait with a queued request, exit and request together leave that request pending with an empty queue |
| Actor.ReadyMeansServing | backend/open_webui/mcp_runtime/supervisor.py:122-141 | `ready` implies a live runner in an opened session; no runner implies `stopped` and an empty queue |
| Actor.StartCreatesIff | backend/open_webui/mcp_runtime/supervisor.py:122-133 | a start creates a runner iff none is live and the package is unchanged; a changed package leaves everything as it was |
| Actor.StartCanSucceed | backend/open_webui/mcp_runtime/supervisor.py:122-141 | from every state without a live runner a start on an unchanged package can succeed, and requests are admitted then |
| Actor.RequestCanBeAnswered | backend/open_webui/mcp_runtime/supervisor.py:220-245 | from every idle wait with a queue the request admitted first can be taken, served and answered |
| Actor.StartSucceedsServing | backend/open_webui/mcp_runtime/supervisor.py:122-141 | in every run a start that returns normally leaves state `ready` and a live runner in an opened session |
| Actor.EventMeansWasReady | backend/open_webui/mcp_runtime/supervisor.py:118-132 | while a runner lives the ready event is set iff a session has become ready since that runner was created |
| Actor.StartFailsAtOnceIff | backend/open_webui/mcp_runtime/supervisor.py:122-141 | in every run a start on a live runner fails at once iff the runner was ready before and is not now; that is only around a restart, and the runner stays alive |
| Actor.StartDuringRestartFails | backend/open_webui/mcp_runtime/supervisor.py:122-141 | so it fails in the backoff and in the session being opened again |
| Actor.StopReturnsStopped | backend/open_webui/mcp_runtime/supervisor.py:265-277 | a stop that returns leaves `stopped`, no runner, an empty queue |
| Actor.StopMakesProgress | backend/open_webui/mcp_runtime/supervisor.py:265-277 | a pending stop always has a next step, each brings it closer, nothing is admitted meanwhile |
| Actor.SessionsAreBounded | backend/open_webui/mcp_runtime/supervisor.py:165-185 | one start opens at most 1 + max_restarts sessions, one if restarts are off |
| Actor.GivesUpWhenExhausted | backend/open_webui/mcp_runtime/supervisor.py:165-185 | a runner fails for good only when restarts are off or all are used up, after one session more than the restarts made |
| Actor.TotalDelayClosedForm | backend/open_webui/mcp_runtime/supervisor.py:179-182 | n restarts wait 2^n - 1 seconds up to n = 5 and 31 + 30(n - 5) beyond |
| Actor.WaitsAreBounded | backend/open_webui/mcp_runtime/schemas.py:42-43 | with at most 20 restarts one start waits at most 481 seconds |
| BoundedLog.Log.Append | backend/open_webui/mcp_runtime/supervisor.py:68-79 | the loop over the split parts is the fold that the laws are about |
| BoundedLog.AppendContinues | backend/open_webui/mcp_runtime/supervisor.py:68-79 | appending to the log of a text gives the log of the longer text |
| BoundedLog.ChunkingDoesNotMatter | backend/open_webui/mcp_runtime/supervisor.py:68-79 | any two chunkings of a text with only newline breaks leave the same last 500 lines and partial line |
| BoundedLog.LinesAreLast | backend/open_webui/mcp_runtime/supervisor.py:81-86 | for every limit: a positive one gives the last lines written, at most 500 and with the unfinished one; any other gives all that is kept |
| BoundedLog.AppendedIs | backend/open_webui/mcp_runtime/supervisor.py:68-79 | for any text one append adds the parts that end with a newline or carriage return, stripped, and keeps the last other part |
| BoundedLog.CutCarriageReturn | backend/open_webui/mcp_runtime/supervisor.py:74-79 | for any log and text a cut inside `\r\n` inserts exactly one blank line |
| BoundedLog.TwoChunksIff | backend/open_webui/mcp_runtime/supervisor.py:68-79 | for any log, full or not, and any text: two chunks leave the log of the whole iff no part put aside comes back and a cut inside `\r\n` does not show |
| BoundedLog.TwoChunksBelowCapIff | backend/open_webui/mcp_runtime/supervisor.py:68-79 | below the cap every cut inside `\r\n` shows |
| BoundedLog.CleanChunksAreWhole | backend/open_webui/mcp_runtime/supervisor.py:68-79 | text whose breaks are newlines and carriage returns may be cut into any chunks that leave `\r\n` whole |
| BoundedLog.NothingIsLostIff | backend/open_webui/mcp_runtime/supervisor.py:68-79 | an append keeps all its text iff the breaks of other kinds, and the end if it is no break, are at most one in number |
| Registry.JSONRegistry.Write | backend/open_webui/mcp_runtime/registry.py:241-260 | the directory after a completed write, or after a failure at any step with the temporary file removed |
| Registry.JSONRegistry.LoadDocument | backend/open_webui/mcp_runtime/registry.py:56-72 | returns and caches what the primary, or else the backup, holds; in a sound directory it succeeds with the primary's document and leaves the cache equal to the disk |
| Registry.JSONRegistry.Snapshot | backend/open_webui/mcp_runtime/registry.py:74-78 | the cached document, or a load; in a sound directory it succeeds and does not change whether the cache differs from the disk |
| Registry.JSONRegistry.Apply | backend/open_webui/mcp_runtime/registry.py:165-208 | cache and directory after a mutation that is rejected, written, or fails at any step |
| RegistryLog.OperationLeaves | backend/open_webui/mcp_runtime/registry.py:149-208 | what an operation that returns leaves on disk and in the cache: the server created, removed, or changed in exactly the fields given; all others as they were |
| RegistryLog.RefusedIff | backend/open_webui/mcp_runtime/registry.py:167-207 | refused are exactly creating a server that is there and updating or deleting one that is not; nothing changes then |
| RegistryLog.RegistryHoldsLog | backend/open_webui/mcp_runtime/registry.py:149-260 | in every run, failures, kills and power losses included, a fresh load and the cache hold exactly the servers whose last mutation behind them is no delete, each field from the last mutation that gave it |
| Registry.CrashLeavesOldOrNew | backend/open_webui/mcp_runtime/registry.py:241-260 | after any prefix of a write a load never fails: the old document before the replacement, the new one after |
| Registry.PowerLossLeavesOldOrNew | backend/open_webui/mcp_runtime/registry.py:241-260 | the same under loss of unsynced data, and the new document once the write completed |
| Registry.PowerLossOutcomes | backend/open_webui/mcp_runtime/registry.py:252-258 | exactly which documents power loss can bring back |
| Registry.BackupHoldsPrevious | backend/open_webui/mcp_runtime/registry.py:250-252 | after a write over an existing file the backup holds the previous document, which a load returns if the primary is corrupted |
| Registry.FirstWriteHasNoBackup | backend/open_webui/mcp_runtime/registry.py:250-252 | after the first write a corrupted primary loads iff an older backup parses |
| Registry.LoadNeverFails | backend/open_webui/mcp_runtime/registry.py:61-72 | no run of mutations, failures, kills and power losses leads to a registry that cannot be loaded |
| Registry.CacheIsDiskAfterSuccess | backend/open_webui/mcp_runtime/registry.py:165-175 | a mutation that returns leaves the cache equal to a fresh load |
| Registry.CacheAfterFailure | backend/open_webui/mcp_runtime/registry.py:166-174 | in every run, after a failed write cache and disk differ iff the document was cached and the replacement had not happened |
| Registry.DivergedIff | backend/open_webui/mcp_runtime/registry.py:149-210 | in every run the cache differs from the disk iff such a failure has happened, with only snapshots and rejected mutations since |
| Registry.RejectedChangeBecomesDurable | backend/open_webui/mcp_runtime/registry.py:166-210 | after a failed write on a cached document the next mutation that reaches the replacement puts both changes on disk |
| ConfigTree.AssignsCommute | backend/open_webui/models/config.py:81-89 | assignments at paths apart from each other commute, whatever non-dicts are in the way |
| ConfigTree.OrderDoesNotMatter | backend/open_webui/models/config.py:80-88 | the same prefix-free rows assemble to the same tree in any order and however often each comes |
| ConfigTree.RowsReadBack | backend/open_webui/models/config.py:81-89 | every row's value is read back at its path |
| ConfigTree.UnflattenInvertsFlatten | backend/open_webui/models/config.py:80-88 | the leaves of a tree without empty dicts assemble, in any order, to that tree |
| ConfigFlatten.RepairIsUnflattening | backend/open_webui/models/config.py:319-346 | the repair loop assigns exactly the rows that the dict absorbs as it is found |
| ConfigFlatten.LeafConnectionStays | backend/open_webui/models/config.py:341-345 | a connection that is no dict stays, and so do its rows |
| ConfigFlatten.RepairOrderDoesNotMatter | backend/open_webui/models/config.py:312-346 | the repair of one dict is the same for every order of its rows and however often a row is returned, if no path leads through another |
| ConfigFlatten.TableOrderDoesNotMatter | backend/open_webui/models/config.py:301-366 | so is the repair of the whole table |
| ConfigFlatten.SplitOfJoin | backend/open_webui/models/config.py:332-339 | splitting at dots inverts joining dot-free parts |
| ConfigFlatten.PathReturnsIff | backend/open_webui/models/config.py:56-77 | for both kinds of dict and every path: it is read back from its dotted form iff, plain, it is dot-free; below a numbered connection, the connection is the number; below any other, a field begins the next part and none a later part |
| ConfigFlatten.ConnectionReturnsIff | backend/open_webui/models/config.py:56-77 | the same for a connection and any path below it |
| ConfigFlatten.HeaderIsLost | backend/open_webui/models/config.py:56-77 | a family that fails: a custom header named like a field, below a connection that does not begin with a number |
| ConfigFlatten.HeaderIsMisread | backend/open_webui/models/config.py:65-77 | it becomes a field of the connection `<connection>.headers` |
| ConfigFlatten.RepairInvertsFlattenIff | backend/open_webui/models/config.py:312-349 | a dict held as rows with dotted keys, in any order, however often returned and under any of its names, is put together again iff no dict inside is empty and every leaf stands at such a path |
| ConfigFlatten.TableInvertsFlattenIff | backend/open_webui/models/config.py:301-366 | the same in the table, beside the other dicts; no row of the namespace is left |
| ConfigFlatten.WalkBlob | backend/open_webui/migrations/versions/3ff2c63645b8_reshape_config_to_per_key_rows.py:441-457 | for every blob: a row for every name of a value that is no dict or has a known name, and each row holds a value of its name |
| ConfigFlatten.WalkIsExact | backend/open_webui/migrations/versions/3ff2c63645b8_reshape_config_to_per_key_rows.py:441-457 | if no key of a dict that the walk enters is blank or dotted, each row holds the one value of its name; what stands inside a known value does not matter |
| ConfigFlatten.KnownDictIsKept | backend/open_webui/migrations/versions/3ff2c63645b8_reshape_config_to_per_key_rows.py:451-452 | a value under a known name, an empty dict too, becomes one row and none below it |
| ConfigFlatten.StartUpKeepsDict | backend/open_webui/config.py:41-44 | start-up keeps a dict as it is when no row of its namespace is there |
| ConfigFlatten.RepairUndoesWalkIff | backend/open_webui/models/config.py:301-366 | from the whole blob: a dict under an unknown name, taken apart by the walk, is put together by the repair iff no dict inside is empty and every path is read back, as every path of a plain dict is |
| ConfigStartup.RFind | backend/open_webui/models/config.py:65-66 | the rightmost occurrence, or -1 if there is none |
| ConfigStartup.SplitApiConfigFragment | backend/open_webui/models/config.py:56-78 | the loop over the fields finds the cut of the split function |
| ConfigStartup.SplitFragmentMeaning | backend/open_webui/models/config.py:56-78 | the cut is at the first dot after digits, else at the rightmost field marker; none iff no marker after the start |
| ConfigStartup.SplitLosesNothing | backend/open_webui/models/config.py:56-78 | key, dot and joined path rebuild the fragment |
| ConfigStartup.RenameMovesAll | backend/open_webui/models/config.py:267-298 | nothing stays under the old prefix, existing values win, every other row moves with its value, no row appears from nowhere |
| ConfigStartup.LeftAloneStays | backend/open_webui/models/config.py:319-346 | a row that the repair leaves alone is one that the finished dict still does not take |
| ConfigStartup.RepairIsIdempotent | backend/open_webui/models/config.py:301-366 | repairing twice is repairing once, for any row orders |
| ConfigStartup.SeedKeepsRows | backend/open_webui/models/config.py:239-264 | seeding overwrites nothing and adds exactly the enabled missing defaults |
| ConfigStartup.NothingUnderOldPrefix | backend/open_webui/config.py:41-44 | after start-up no key is under the old prefix |
| ConfigStartup.StartUpKeepsRows | backend/open_webui/config.py:41-44 | a row outside the old prefix and the repaired dicts keeps its value |
| ConfigStartup.StartUpIsIdempotent | backend/open_webui/config.py:41-44 | rename, repair, seed done again changes nothing, if the defaults lie outside the old prefix and the flattened rows |
| ConfigKeys.TableIsIndependent | backend/open_webui/models/config.py:23-37 | the dict keys of the actual table differ and none lies inside a namespace |
| ConfigKeys.StartUpFitsIff | backend/open_webui/config.py:41-44 | the actual call of start-up meets the conditions of the theorems iff no default lies under the old prefix or inside a namespace |
| ConfigStartup.ConfigTable.Seed | backend/open_webui/models/config.py:246-262 | the loop adds exactly the missing enabled defaults |
| ConfigStartup.ConfigTable.AbsorbNamespace | backend/open_webui/models/config.py:322-346 | the row loop of one dict is the fold that the laws are about |
| ConfigStartup.ConfigTable.RepairFlattened | backend/open_webui/models/config.py:301-366 | the outer loop, one deletion at the end, yields the repaired rows |
| Glob.FiveReplacementsAreOnePass | backend/open_webui/models/files.py:289-295 | the five whole-string replacements equal one character-by-character translation |
| Glob.TranslationKeepsMeaning | backend/open_webui/models/files.py:275-295 | for every glob and name the LIKE pattern matches iff the glob does |
| Glob.TranslationIsValid | backend/open_webui/models/files.py:289-295 | the pattern never has an illegal escape |
| Glob.PercentIsStar | backend/open_webui/models/files.py:324-326 | the pattern is `%` iff the glob is `*`, so leaving the filter out is sound |
| Glob.SearchReturnsGlobMatches | backend/open_webui/models/files.py:297-329 | the search returns exactly the names that the glob matches |
| Channels.MembershipTable.InsertNewChannel | backend/open_webui/models/channels.py:343-377 | one active row per collected user, for group and dm channels only |
| Channels.MembershipTable.AddMembers | backend/open_webui/models/channels.py:468-492 | one row for each requested user who had none |
| Channels.MembershipTable.JoinChannel | backend/open_webui/models/channels.py:528-564 | a row only if there was none, active or not; the channel's users gain exactly this one, other channels nothing |
| Channels.MembershipTable.LeaveChannel | backend/open_webui/models/channels.py:566-584 | no channel's users and no row of another user or channel change; with one row each the user has no active row left |
| Channels.MembershipTable.RemoveMembers | backend/open_webui/models/channels.py:494-508 | exactly the listed users go, from this channel only; with one row each the number returned is that of the users removed |
| Channels.RunsKeepOneRow | backend/open_webui/models/channels.py:297-584 | every sequential run keeps at most one row per channel and user |
| Channels.SelectedIffExactMembers | backend/open_webui/models/channels.py:432-466 | under that invariant count and sum pick a channel iff its members are exactly the wanted users |
| Channels.FindDmChannel | backend/open_webui/models/channels.py:432-466 | finds a dm channel with exactly those members iff there is one |
| Channels.LookupIsFooledIff | backend/open_webui/models/channels.py:432-466 | on any rows the counts pick a wrong channel iff only some of the wanted users have rows there, but as many rows as there are wanted users |
| Channels.DuplicateRowFoolsLookup | backend/open_webui/models/channels.py:432-466 | a family where that happens: one of two wanted users with two rows |
| Access.BatchIsFilter | backend/open_webui/models/access_grants.py:622-676 | the batch form is the single form asked for each id |
| Access.AccessMeans | backend/open_webui/models/access_grants.py:562-620 | the decision read off the tables: a grant of that permission on that resource to everyone, to the user, or to a group with the user as a member |
| Access.ReadOnlyMeans | backend/open_webui/models/access_grants.py:832-942 | the read-only listing read off the tables: granted reading but not writing, not readable by everyone, not owned |
| Access.ListedMeans | backend/open_webui/models/access_grants.py:723-830 | the listing read off the tables: everything for nobody in particular, else what is owned, granted to everyone, or granted to the viewer |
| Access.UsersWithAccess | backend/open_webui/models/access_grants.py:678-721 | the list holds an existing user iff the user has access, pending users only where access is not public |
| Access.ListingIsOwnedOrAccessible | backend/open_webui/models/access_grants.py:723-830 | for a user with all groups the listing keeps exactly owned or accessible rows |
| Access.ReadOnlyMeetsWrite | backend/open_webui/models/access_grants.py:832-942 | a row is in both the read-only and the write listing iff it is listed read-only and everyone may write it |
| Access.PublicWriteIsListedReadOnly | backend/open_webui/models/access_grants.py:832-942 | a personal read grant beside a public write grant puts a row in both |

## Left out

- Message dicts are typed: values that are not dicts are not modelled, and a missing `parentId` key is told from a null one only in the messages of an update. Stored messages without the key are written as if it were there, which makes no difference where the rows agree (`DualWrite.AgreeingKeysDoNotMatter`), as they do in every run.
- Merge.MergeHistory: does not model that the merge also changes the message dicts of its two inputs in place.
- `update_chat_by_id` inside a follow-up rewrites the stored history unchanged; concurrent requests on one chat are not modelled, each request runs alone.
- Row writes are assumed to succeed; token usage, files, sources and the other content columns are not modelled.
- Healing.GetMessagesMap: assumes row keys well formed and chat ids of one length; legacy rows without the prefix are not modelled.
- The actor is a step system on values, not a class: between two suspension points several fields change at once, and the interleaving of coroutines has no counterpart in Dafny methods. Calls of start and stop on one actor are assumed not to overlap, and a cancelled session is assumed to end by propagating the cancellation.
- The subprocess, the MCP protocol session, log pipes, package digests and the `Supervisor` wrapper around the actors (authorisation, dict of actors) are not part of this model; a session is an environment that becomes ready, answers, errors or exits.
- BoundedLog: redactions are not modelled.
- Package resolution, manifests, `_validate_environment` and access grants of servers are not part of the registry model.
- ConfigTree works on values: the cursor that walks nested dicts in place becomes a recursive function, so aliasing between rows' values is not modelled.
- LIKE is taken to select at least the rows under the prefix; extra rows that a wildcard or a letter of the other case brings in, and rows returned by several queries, are allowed and proved harmless in the repair, and taken to be absent in the rename. Digits are ASCII digits. Start-up is modelled with persistence enabled; the conditions on the table of dict keys are hypotheses of the theorems and proved of the actual table (`ConfigKeys`); the default values are not listed.
- ILIKE is modelled as equality up to a character-wise folding.
- Listing order, pagination, update times and identifiers of rows are not modelled. A message without a time gets the clock's in its row; the model records 0.
- RegistryLog.RegistryHoldsLog: assumes that the process starts on a directory whose last replacement has been synced.
- `normalize_access_grants` and the conversions from and to the legacy form, `Config.get`, `get_many` and `upsert`, and the remaining queries are left out.
