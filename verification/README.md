# Seshat: what its core promises, proved

Seshat keeps a forest of tasks. A Go server owns it; a Zig terminal client (and
command line) and a Go bot read and edit it at the same time. This project models
the parts where that is hard to get right and proves what they promise.

| files | what they model |
|---|---|
| `Tasks`, `Graph` | the task contract; paths, reachability, forests |
| `Validate`, `StoreSpec`, `Store`, `Slices`, `StoreLaws`, `StoreRuns` | the server's structural check and its transactional store, one request at a time and over whole runs; its child lists as slices edited in place |
| `Protocol`, `Pieces`, `Replies` | the bot's read-modify-write cycle against the store, other clients and lost messages in between, and what it makes of a reply |
| `Scoring`, `Walks`, `Ranking`, `Orders`, `Outline`, `Listing`, `Pages` | urgency, the visited-set walks, the orders and what they mean, the bot's listing and its pages |
| `Scores`, `Ledger`, `Folding`, `Cursor`, `Screen` | the terminal client's memoised scores, rows, folds, cursor and viewport, and where one event sends the cursor |
| `Utf8`, `LineEditor`, `Calendar`, `Dates`, `Handles`, `Edits` | the byte-level line editor, the date code, the short handles, the one-field edits |
| `TuiCore`, `Keys`, `TuiRuns`, `Tui` | the terminal client's event handler: as a function, key by key, over runs, and as the object that holds everything derived |
| `RecencyList`, `Registry` | the bot's action registry, as a list of records and as it is laid out |

What the source updates in place is a class or a loop here, proved against a
function; the laws are about that function. Walks and orders are proved on any
data, forests or not, unless a row below says forest, acyclic or treelike (acyclic
with no id listed twice; listed ids without a task are allowed). `dafny verify
dfyconfig.toml` checks everything.

## Assumptions

- Integers are mathematical: versions, row depths and counts do not wrap, and the
  month total of a relative date does not overflow.
- The id generator never repeats an id within a run, nor one already in the file.
- Versions in the data file start at 1. A file in which a task's key is not its id
  loads, as in the source, but the laws of the store are about files where it is.
- Clients receive task lists with distinct ids.
- Strings are sequences of Unicode scalar values. Comparing them that way is
  comparing their UTF-8 bytes (sections 3 and 4 of RFC 3629); only the line editor
  is about bytes.
- A locked store or registry call is one atomic step. A rename replaces the
  directory entry in one step and for good, a file that was synced survives a crash
  whole, and a save's temporary file has a name no earlier one left behind.
- Dates lie before the year 65536: past it the year of the Zig calendar, 16 bits
  wide, overflows.
- One reply arrives for every request of the terminal client.

## Where a promise fails, and exactly when it holds

Each of these is a lemma with the condition in both directions, or a concrete run.

- An add whose parent id is the very id about to be handed out lists the task in
  itself and is refused as a cycle (`StoreLaws.AddKeepsForestIff`).
- A prompt protects the content that was stored when the prompt went out exactly
  when the pinned version is not 0, since 0 means "no pin" to `applyEdit`
  (`Protocol.PromptProtectsIff`; for what the user types, `Protocol.ReplyProtectsIff`).
  A store that starts with positive versions never shows a 0.
- It does not protect what the user read: the prompt fetches again and pins that
  version. The reply replaces the task on the card exactly when the version on the
  card is the pinned one (`Protocol.CardIsReplacedIff`), and a change in between is
  replaced unseen (`Protocol.ChangeAfterCardIsReplaced`). The same holds between the
  conflict card and an overwrite (`Protocol.OverwrittenIsShownIff`,
  `Protocol.ChangeAfterConflictIsReplaced`).
- The comment on `Editing` (client/zig/src/tui/model.zig:51-59) says typed text
  never lands on another task. Keys already queued when $EDITOR starts are handled
  before its text comes back; they can open another editor, and the text is then
  committed as that task's description, even if that editor was open on a
  description too (`TuiRuns.StrayTextLandsElsewhere`). A returned text goes to the
  task it was written for exactly when the mode at its return is an editor of that
  very task (`TuiRuns.ReturnedTextGoesHomeIff`), and is lost exactly when no editor
  is open (`TuiRuns.ReturnedTextIsLostIff`). What can be seen to beforehand: as long
  as no Escape is handled, the first text to come back is committed to the task whose
  description was opened last; it is that task's own text exactly when no other
  $EDITOR was still running when it was opened, and the text after it is lost
  (`TuiRuns.FirstTextIsCommitted`). A text that was taken by another field's editor
  stays there after a failed request, and Enter then commits it as a description
  (`TuiRuns.CommitChangesItsFieldIff`); which $EDITOR a retained text came from is
  settled over every run (`TuiRuns.EveryRetainedTextCameBack`).
- The shell reports an $EDITOR that will not start as a failed request
  (client/zig/src/tui/app.zig:617-618). If a real request is out by then, the
  handler forgets it and a second one can start; the rule of one request at a time
  survives a step iff it is not that one (`TuiRuns.StepKeepsInvIff`). It can happen
  from a fresh start (`TuiRuns.TwoRequestsCanBeOut`). What an editor, a confirmation
  or a commit is about does not depend on it.
- Opening an editor and committing it untouched can change the task: a description
  loses its final newline; a date loses its time of day, or its day when that is
  before the epoch or past 9999; a tag with a comma splits (`Edits.UntouchedKeepsIff`).
- Handles with distinct tails can still be ambiguous when ids differ in length
  (`Handles.HandleResolvesIff`, `Handles.ShortIdHidesInLongOne`).

## Model

| member | source | states |
|---|---|---|
| Validate.ValidateState | server/validate.go:16-60 | terminates on every task map and accepts it iff it is a forest (no dangling child, every child listed once over all lists, no cycle), in whatever order the maps are traversed; what it reports is really there |
| Validate.CheckLists | server/validate.go:17-33 | acceptance means no dangling child and one container each; a rejection names a genuine duplicate, dangling child or second container |
| Validate.Colouring.Visit | server/validate.go:37-51 | the colouring walk reports a cycle only where an edge leads back to an ancestor, and otherwise finishes the task with every edge falling in finishing number |
| Validate.CheckCycles | server/validate.go:35-59 | accepts only acyclic graphs; a reported cycle is a real one |
| Validate.GenuineIsNotForest | server/validate.go:16-60 | any violation the check can report excludes being a forest |
| Store.Store.Load | server/store.go:58-95 | succeeds exactly on an absent file that can be written, or on a whole file with a forest in a known format (0 counts as 1), whatever its keys and whatever dead saves have left in the folder; the memory then is what the file says, and a valid store iff every key is its task's id |
| Store.Store.SaveState | server/store.go:97-123 | step by step on the folder itself: a failure at any step leaves the folder as it was; should the process die at any step, the data file is the old one or holds the new state, whole |
| Store.NewStore | server/store.go:47-56 | a process starts exactly on a folder whose data file loads, in the state it holds |
| Store.Restart | server/store.go:47-123 | a process that dies at any step of a request, and is started again on what it left, is a valid store in the state before the request or after it |
| Store.Store.RebuildIndex | server/store.go:125-133 | `parent[c] == p` iff `p` lists `c` |
| Store.Store.Add | server/store.go:213-261 | keeps forest, index and disk equal to memory; the new task holds the request's whole content, at version 1, stamped with the time of the call, and as completed iff it is closed; the new state and the status are those of the request; any failure leaves memory, index and disk as they were; and a process dying at any step leaves a folder that starts in the state before or after |
| Store.Store.Update | server/store.go:263-327 | the same for a batch: all operations or none, conflicts reported in batch order, the answered tasks are the stored ones |
| Store.Store.Delete | server/store.go:339-365 | the same for a delete, though only the indexed parent is edited: no other task lists the deleted one |
| Store.Store.Commit | server/store.go:251-260 | check, persist, then commit: memory changes iff the candidate is a forest and the save succeeds |
| Store.CheckVersions | server/store.go:277-293 | 404 before 409; the conflicts are exactly the mismatched operations |
| Store.ApplyOps | server/store.go:295-312 | the loop over the batch leaves the map in which each target took its own operation |
| Store.RemoveString | server/store.go:329-337 | removes every occurrence, keeps the rest in order |
| Slices.CloneLists | server/store.go:142-162 | every list in an array of its own, saying the same |
| Slices.RemoveString | server/store.go:329-337 | filtering in place, in the list's own array, leaves the elements that stay, in order |
| Slices.InsertAt | server/store.go:206-211 | appending, in spare room or in a longer array, shifting and writing is insertion at the position |
| Slices.DetachedLists | server/store.go:346-352 | a delete edits its candidate's lists in place and leaves every live list as it was, sharing no array with it |
| Slices.InsertedLists | server/store.go:233-249 | the same for an add under a parent |
| StoreLaws.AddKeepsForestIff | server/store.go:213-261 | a screened add keeps the forest iff it does not name its own fresh id as parent |
| StoreLaws.AddIsNeverBroken | server/store.go:213-261 | under an existing parent, or none, an add can only fail to save |
| StoreLaws.AddedTaskHolds | server/store.go:213-261 | a new task is its id, the request's whole content, both stamps at now, version 1, and a completion stamp iff its status is done or cancelled |
| StoreLaws.AddedWhere | server/store.go:233-249 | among the parent's children the new id stands at the requested position, held inside the list, or at the end when none is asked for |
| StoreLaws.AddAnswer | server/store.go:213-261 | when an add is answered 200, 400, 404, 422 or 500 |
| StoreLaws.UpdateFrame | server/store.go:263-327 | a target takes its operation's content, one version on and stamped now; the completion stamp is set when it closes, cleared when it opens and else kept; every other task stays as it was |
| StoreLaws.UpdateAnswer | server/store.go:263-327 | when a batch is answered 200, 400, 404, 409, 422 or 500 |
| StoreLaws.DeleteFrame | server/store.go:339-365 | a delete takes the id out of the one list that holds it, whose task goes one version on, and leaves every other task as it was |
| StoreLaws.DeleteAnswer | server/store.go:339-365 | when a delete is answered 200, 404 or 500 |
| StoreLaws.AddFrame | server/store.go:233-249 | only the new task and its parent's list change: the id stands at the clamped position and the other children keep their order |
| StoreLaws.DeleteKeepsForest | server/store.go:339-365 | a delete keeps the forest |
| StoreLaws.DeleteIsNeverBroken | server/store.go:339-365 | deleting an existing task never trips the check |
| StoreLaws.RootsAfterDelete | server/store.go:345-354 | the new roots are the old ones without the task, and its children |
| StoreLaws.AddThenDelete | server/store.go:213-365 | deleting what was just added restores every content |
| StoreLaws.ConflictsExact | server/store.go:283-293 | a task is reported iff some operation on it expects another version |
| StoreLaws.BatchOrderIrrelevant | server/store.go:263-327 | reordering a batch changes neither the answer nor the resulting state |
| StoreLaws.MoveAcceptedIff | server/store.go:263-327 | moving a subtree to another parent in one batch is refused as a cycle iff the new parent is inside it, refused unread iff an owner's stored content would not pass the screen, and otherwise answers 200 or, if the save fails, 500 |
| StoreRuns.RunKeepsForest | server/store.go:213-365 | after any run of requests, saves failing at will, the state is a forest |
| StoreRuns.SameVersionSameState | server/store.go:251-260 | the state version never falls, and equal versions (the entity tag of section 8.8.3 of RFC 9110) mean equal states |
| StoreRuns.SurvivorsStepByOne | server/store.go:213-365 | a task that survives a request is untouched or its version rose by exactly 1 |
| StoreRuns.GoneStaysGone | server/store.go:339-365 | a deleted id never comes back |
| StoreRuns.VersionPinsTask | server/store.go:263-327 | over a run, equal versions of one id mean the same task |
| StoreRuns.RunStampsIffClosed | server/store.go:186-194 | if it held at the start, `completed_at` is set iff the status is terminal |
| StoreRuns.RunKeepsPositiveVersions | server/store.go:229-311 | versions never become 0 |
| Protocol.StepKeepsInv | client/bot/handlers.go:245-566 | every step of the card, the prompt, the edit, the conflict card, the network and other clients keeps the protocol's invariant |
| Protocol.NoLostUpdate | client/bot/handlers.go:279-317 | under any interleaving, with lost and late messages, an edit commits at most once, and what it commits is its patch of exactly the content it replaces |
| Protocol.EndingIsHonest | client/bot/handlers.go:279-317 | success means committed and returns the committed task; every other answer but silence means nothing was written |
| Protocol.RetriesAreBounded | client/bot/handlers.go:308-316 | at most one retry, none when pinned, and a final 409 only after the retry |
| Protocol.PinnedPromptProtects | client/bot/handlers.go:441-513 | unless the user chose to overwrite, a reply under a version other than 0 only ever replaces the content that was stored when the prompt went out: for every task and every edit |
| Protocol.PromptProtectsIff | client/bot/handlers.go:293-295 | for every task and every change of title, description or tags: it protects iff the pinned version is not 0, the change is a blank title, or no server can hold such a task (it lists an id twice or itself) |
| Protocol.ReplyProtectsIff | client/bot/handlers.go:414-513 | for every task a server can hold and every text the user types: iff the pinned version is not 0 or nothing but Unicode space stands where a title should be |
| Protocol.ReplyChangesItsField | client/bot/handlers.go:414-513 | in every run, what a reply commits differs from what it replaces in the prompt's own field alone: the title or description is the typed text without the space around it, the tags are its comma-separated pieces, stripped, the empty ones dropped, in order |
| Protocol.CleanTagsAreSet | client/bot/handlers.go:414-432 | a reply of clean tags separated by a comma and a blank sets exactly those tags |
| Replies.TrimSpaceStrips | client/bot/handlers.go:414-432 | trimming takes the Unicode space at both ends and no more, and leaves nothing iff there was nothing else |
| Replies.PiecesAreListed | client/bot/handlers.go:414-432 | for any text the tags are the pieces between commas that are more than space, stripped, in order |
| Protocol.CardIsReplacedIff | client/bot/handlers.go:245-317 | what a pinned reply replaces is what the user read on the card iff the version on the card is the pinned one |
| Protocol.OverwrittenIsShownIff | client/bot/handlers.go:515-566 | what an overwrite replaces is what the conflict card showed iff its version is the one the overwrite was sent under |
| Protocol.ChangeAfterCardIsReplaced | client/bot/handlers.go:441-476 | the run in which a change between the card and the prompt is replaced unseen, pinned though it is |
| Protocol.ChangeAfterConflictIsReplaced | client/bot/handlers.go:515-566 | the run in which a change between the conflict card and the overwrite is replaced unseen |
| Protocol.VersionZeroSlipsThrough | client/bot/handlers.go:293-295 | for every task a server can hold and every change that is not a blank title, the run, from a store with that task and its children, in which version 0 lets it replace a change made after the prompt |
| Tasks.StatusIs | internal/task/task.go:5-23 | done and cancelled are closed; those, todo and in progress are all a write may set |
| Scoring.UrgencyIs | client/bot/view.go:59-112 | the sum in numbers: priority 5, 3, 1 or 0, due 8 overdue, then 6, 4, 2 within 1, 3, 7 days, one point a week of age up to 4, and 0 for a closed task |
| Scoring.UrgencyGrows | client/bot/view.go:75-112 | as time passes a task only grows more urgent, and what needs attention or is overdue stays so |
| Scoring.AttentionIs | client/zig/src/tui/ledger.zig:27-32 | open, and high or due within three days; overdue is open and past the due date |
| Scoring.MatchIs | client/zig/src/core/view.zig:187-218 | a task passes a filter iff it has all its tags, one of its statuses if there are any, and is overdue if asked |
| Walks.SubtreeSome | client/bot/view.go:189-207 | with early exit and "false" on revisits, the walk still closes over what it saw and is right about all of it |
| Walks.HasSomeBelow | client/zig/src/core/view.zig:220-235 | true iff some reachable task is open / matches, on any graph |
| Walks.SubtreeMaxUrgency | client/bot/view.go:117-138 | the maximum urgency over all reachable tasks, though revisits answer 0 |
| Walks.Index.RootIsRoot | client/zig/src/core/view.zig:8-39 | "referenced by nobody" is the graph's notion of a root |
| Walks.Select | client/zig/src/core/view.zig:237-262 | with `roots_only` exactly the roots with a match at or below them, without it exactly the tasks that match by themselves, in arrival order |
| Ranking.ComparisonsAreStrictTotal | client/zig/src/core/view.zig:344-415 | all five strategies, ranking by score and the bot's root order are strict total orders on tasks with distinct ids |
| Ranking.SortedIsUnique | client/bot/view.go:164-168 | two sorted lists of the same elements are the same list, so any correct sort gives one result |
| Ranking.SortSorts | client/zig/src/core/view.zig:399-403 | the sort is a permutation in strict order |
| Ranking.RankByScore | client/zig/src/core/view.zig:418-432 | a permutation of the scored tasks, strictly in score order, finished subtrees last |
| Ranking.Rank | client/zig/src/core/view.zig:399-403 | a permutation of the tasks, strictly in the strategy's order |
| Orders.StrLessIs | client/bot/view.go:157-161 | ids compare in dictionary order: a proper prefix first, else by the first differing character |
| Orders.RankIs | client/zig/src/core/view.zig:346-397 | open before closed, and then highest priority, earliest due date with undated last, title in dictionary order with case ignored, newest, or most urgent first; ties go to the older task, then to the smaller id |
| Orders.RankByScoreIs | client/zig/src/core/view.zig:405-416 | unfinished subtrees first, and by urgency the greater score; else as the strategy says; the same ties |
| Orders.RootsAre | client/bot/view.go:140-162 | open roots first, then the greater subtree urgency, then the older root, then the smaller id |
| Listing.Expansion.Expand | client/bot/view.go:211-224 | adds exactly the reachable tasks not seen yet, each once and at the length of a path to it, on any graph; on a forest exactly the preorder of the subtree |
| Listing.PreorderIsExact | client/bot/view.go:209-224 | on a forest the preorder holds exactly the subtree, each task once, at its true depth |
| Listing.RankRoots | client/bot/view.go:140-168 | the roots with their subtree urgencies, strictly in order |
| Listing.ListGroups | client/bot/view.go:226-247 | the groups of the open roots in rank order; on any graph a group is exactly what its root reaches, at path-length depths |
| Listing.ListingOrder | client/bot/view.go:140-168 | of a listing, whatever produced it: no closed root stands before an open one; among roots alike the group that holds the more urgent task comes first, and on a tie the older root, then the smaller id |
| Listing.GroupHasHead | client/bot/view.go:226-247 | every group has exactly one root it was made for |
| Listing.RowsUnfold | client/bot/view.go:209-224 | on an accepted state below every row stand its children, one level deeper and in listed order, each with its own below it |
| Listing.OpenTreesAreShown | client/bot/view.go:226-247 | on an accepted state every open task has a row, in a group that is its whole tree in preorder at true depths |
| Listing.NoTaskListedTwice | client/bot/view.go:226-247 | no task has two rows anywhere |
| Listing.ClosedTreesAreHidden | client/bot/view.go:185-207 | a tree with nothing open has no row |
| Listing.ArrivalOrderIrrelevant | client/bot/view.go:140-168 | whatever order the tasks arrive in, the listing is the same, row by row |
| Pages.PageBreaks | client/bot/view.go:271-295 | every page is within 5 groups and 25 rows or a single oversized group, and could not have taken the next group |
| Pages.Paginate | client/bot/view.go:297-328 | any requested page clamps into range and shows the groups of its part of the greedy split whole, or 25 rows of an oversized one with the rest counted; the cut is always in range |
| Pages.PagesEndToEnd | client/bot/view.go:271-328 | the rows of page 0 up to the last, put end to end, are all groups in order with oversized ones cut to 25 rows, and rows and overflows together count every row |
| Pages.GreedyIsUnique | client/bot/view.go:271-295 | the split is the same at every request |
| Pages.GreedyIsOptimal | client/bot/view.go:271-295 | no legal split of the groups has fewer pages |
| Scores.Scorer.Walk | client/zig/src/tui/ledger.zig:49-104 | terminates on any graph, keeps every memoised score honest, and on acyclic data returns the recursive definition |
| Scores.ComputeScores | client/zig/src/tui/ledger.zig:34-47 | scores every task: honest on any graph, equal to the recursive definition on acyclic data |
| Scores.ScoreMeansSubtree | client/zig/src/tui/ledger.zig:82-101 | on acyclic data `sub`, `all_complete` and `matches` speak of the whole subtree |
| Scores.ScoreAgrees | client/zig/src/core/view.zig:237-262 | a root's `matches` is what the selection decides, and `sub` is the bot's subtree urgency |
| Scores.CountsAreTrue | client/zig/src/tui/ledger.zig:97-98 | among trees `descendants` and `attention` count each descendant once |
| Ledger.MarkReachable | client/zig/src/tui/ledger.zig:125-138 | marks everything below, whatever is folded |
| Ledger.Builder.Emit | client/zig/src/tui/ledger.zig:209-271 | on any graph: no task twice; what is added is one tree of rows, each hanging from an open row as one of its listed children, one deeper and marked last iff it is the last; every child of an open row is shown or, if it does not exist, has its missing row; on treelike data exactly the folded tree |
| Ledger.BuildRows | client/zig/src/tui/ledger.zig:140-207 | on any graph: no task has two rows, every root is shown, every row at the top is a root's or, below the header, an orphan's, and every other row hangs from its open parent's row, and every missing child of an open row has its row; on treelike data the rows are exactly the folded trees |
| Folding.RowTells | client/zig/src/tui/ledger.zig:120-251 | among trees a task's row is open as the user left it, or, never touched, iff something strictly below needs attention; its badges count the subtree; it is dimmed iff a filter is on that it does not pass |
| Folding.RowsUnfold | client/zig/src/tui/ledger.zig:240-271 | among trees below an open row stands one row per listed child, one level deeper and in order, missing ones too, each with its own below it, and below a closed row nothing |
| Folding.ShownIff | client/zig/src/tui/ledger.zig:209-271 | among trees a task has a row iff a way through open tasks leads to it from a root of the list |
| Folding.TopRowsAre | client/zig/src/tui/ledger.zig:140-168 | of two rows at the top the upper one is of the earlier root of the list |
| Ledger.OrphanIs | client/zig/src/tui/ledger.zig:169-206 | what the header is about: tasks no root leads to; under a filter only such as something they lead to passes, and always one that passes itself |
| Ledger.NothingHidden | client/zig/src/tui/ledger.zig:132-271 | on any graph every task that matches the filter is a row or lies below a row shown collapsed |
| Ledger.OrphansBelowHeader | client/zig/src/tui/ledger.zig:169-206 | what no root leads to stands below the one header, and while no id is listed twice nothing else does |
| Ledger.HeaderIff | client/zig/src/tui/ledger.zig:169-206 | the header is there iff some task that the filter does not skip has no root above it |
| Cursor.NearestTaskRow | client/zig/src/tui/model.zig:418-428 | the nearest selectable row, the earlier of two; none iff there is none |
| Cursor.ScanTaskRow | client/zig/src/tui/model.zig:814-837 | the first selectable row that way, else the last one that way |
| Cursor.PageTarget | client/zig/src/tui/model.zig:847-858 | half a page on and then the first row that can be selected, or the last of them; never back, and stalled only where nothing selectable lies ahead |
| Cursor.StepTarget | client/zig/src/tui/model.zig:763-777 | the adjacent selectable row, or none iff the cursor is at that end |
| Cursor.LayoutFor | client/zig/src/tui/ledger.zig:315-320 | list and pane share the height; an open pane takes a third, but seven rows at least, which hold every field, and leaves the list a row |
| Cursor.EnsureVisible | client/zig/src/tui/ledger.zig:301-309 | the cursor ends up on the screen, the list does not scroll past its end, a good view does not move |
| Utf8.DecodeEncode | client/zig/src/tui/editors.zig:56-59 | decoding undoes encoding (sections 3 and 4 of RFC 3629) |
| Utf8.EncodeDecode | client/zig/src/tui/editors.zig:20-38 | encoding undoes decoding, so a well-formed byte string has one text |
| LineEditor.ByteEditor.NextBoundary | client/zig/src/tui/editors.zig:40-44 | the byte after the character at the cursor |
| LineEditor.ByteEditor.PrevBoundary | client/zig/src/tui/editors.zig:46-52 | the byte where the character before the cursor starts |
| LineEditor.ByteEditor.Handle | client/zig/src/tui/editors.zig:54-79 | every key acts on the bytes as it acts on the text and its position |
| LineEditor.ByteEditor.BytesSpellTheText | client/zig/src/tui/editors.zig:20-22 | the buffer is always well-formed UTF-8 that decodes to the text, the cursor on a boundary |
| LineEditor.KeysAct | client/zig/src/tui/editors.zig:54-79 | every key in terms of the text before the cursor and the text after it |
| Utf8.KnownBytes | client/zig/src/tui/editors.zig:56-59 | the encoder on the examples of section 7 of RFC 3629 |
| LineEditor.TypingIsUndone | client/zig/src/tui/editors.zig:54-76 | backspace takes back what was typed, delete after left too |
| LineEditor.RotationIsUndone | client/zig/src/tui/editors.zig:93-100 | opposite picker keys undo each other all the way round |
| LineEditor.PickerTurns | client/zig/src/tui/editors.zig:93-100 | down and right go to the next entry, up and left to the one before, round at the ends; no other key moves |
| Calendar.YmdToEpochDay | client/zig/src/core/edit.zig:38-50 | the counted day number of every valid date, and an error for every other |
| Calendar.EpochDayToYmd | client/zig/src/core/edit.zig:52-59 | the date with that day number |
| Calendar.DayNumberIsMonotone | client/zig/src/core/edit.zig:38-50 | strictly increasing in (year, month, day), both directions |
| Calendar.DateRoundTrip | client/zig/src/core/edit.zig:38-59 | the two are inverse, so days and dates correspond one to one |
| Calendar.YearStartClosed | client/zig/src/core/edit.zig:44-45 | the counted years agree with the usual closed form of the Gregorian calendar |
| Calendar.DayNumberClosed | client/zig/src/core/edit.zig:38-50 | the day number in closed form, the lengths of the months written out |
| Dates.PrintedIs | client/zig/src/core/display.zig:37-49 | a date prints as its year, month and day, digit by digit |
| Dates.ClockIs | client/zig/src/core/edit.zig:82-118 | a printed date with a time of day parses to that minute of that day in the local offset, if the hour is below 24, the minute below 60 and the instant between the epoch and the end of 9999 |
| Dates.BareDateIs | client/zig/src/core/edit.zig:82-118 | a bare due date is the last second of its day, a bare scheduled one the first |
| Dates.RelativeIs | client/zig/src/core/edit.zig:122-151 | the exact instant of N days, weeks or months from the local today, and when it is refused |
| Dates.KeywordIs | client/bot/view.go:368-406 | a due keyword is the last second of the local today, or 1, 3 or 7 days later |
| Dates.ParsedPrintsBack | client/zig/src/core/edit.zig:82-105 | whatever absolute date is accepted, at whatever offset, prints as the date that was typed |
| Dates.PrintedParsesBack | client/zig/src/core/display.zig:37-49 | for every instant before the year 65536 and every offset: a printed date parses to its own local day (the epoch's, before the epoch) at the time of day a bare date stands for; past 9999 or out of range it does not parse |
| Dates.AddMonthsLands | client/zig/src/core/edit.zig:136-149 | exactly N months later, on the same day or the last of a shorter month |
| Dates.AddMonthsIncreases | client/zig/src/core/edit.zig:136-149 | more months, later date |
| Dates.RelativeLands | client/zig/src/core/edit.zig:122-151 | an accepted relative date prints as N days, weeks or months after the local today |
| Dates.KeywordsAgree | client/bot/view.go:368-406 | the bot's due keywords and the command line's give the same instant, except where the command line refuses |
| Handles.HandleText | client/zig/src/core/display.zig:74-84 | writes '#' and the lower-cased tail, cut to the buffer, and nothing beyond |
| Handles.HandleIs | client/zig/src/core/display.zig:74-84 | a sharp and the last characters of the id in lower case |
| Handles.MinUniqueSuffixLen | client/zig/src/core/view.zig:535-553 | the smallest length from 4 to 26 with distinct tails; 26 when there is none |
| Handles.Resolve | client/zig/src/core/view.zig:518-530 | the one task ending that way; ambiguous iff two do; unknown iff none does or nothing was asked |
| Handles.HandleResolvesIff | client/zig/src/core/display.zig:74-84 | a printed handle names its task iff no other id ends the same way, case aside |
| Handles.HandlesReadBack | client/zig/src/core/view.zig:532-553 | for distinct capital ids of one length, distinct tails suffice |
| Handles.PrintThenResolve | client/zig/src/core/view.zig:507-553 | print at the chosen length, look it up: the very same task, never ambiguous |
| Handles.ShortIdHidesInLongOne | client/zig/src/core/view.zig:532-534 | why the one-length precondition is needed |
| Edits.SplitTags | client/zig/src/core/edit.zig:211-225 | the loop yields the trimmed non-empty segments in order |
| Edits.TagsAreListed | client/zig/src/core/edit.zig:211-225 | for any line the tags are the pieces between commas that are more than spaces, stripped, in order |
| Edits.SpacedTagsRead | client/zig/src/core/edit.zig:211-225 | clean tags written with a comma and a blank between them read as those tags |
| Edits.TrimStrips | client/zig/src/core/edit.zig:218-221 | trimming takes the blanks at both ends and no more |
| Edits.DateOfIs | client/zig/src/tui/model.zig:1271-1279 | blanks and "none" clear a date; else it is what the text parses to |
| Edits.SplitIsClean | client/zig/src/core/edit.zig:211-225 | no tag from an editor is empty, holds a comma or has outer spaces |
| Edits.TagsRoundTripIff | client/zig/src/tui/model.zig:1176-1181 | joining and splitting keeps the tags iff they are clean |
| Edits.PatchSetsOneField | client/zig/src/core/edit.zig:179-190 | an editor's patch sets its field to what the editor shows and touches nothing else, never the children; there is none iff a date does not parse |
| Edits.EditedTextIs | client/zig/src/tui/app.zig:384-402 | a run of $EDITOR gives back the text it left, one final newline aside, unless it failed or left the text as it was |
| Edits.UntouchedVisitIff | client/zig/src/tui/app.zig:384-402 | a visit to $EDITOR without a change is no commit iff the text does not itself end in a newline, whether or not the editor ends the last line on its own; else it commits the text without it |
| Edits.UntouchedKeepsIff | client/zig/src/tui/model.zig:1148-1206 | opening an editor and committing it at once keeps the task iff the field's text form says all there is, for every field and every stored value |
| TuiCore.UpdateKeepsTexts | client/zig/src/tui/model.zig:465-483 | every event keeps the open editors' positions inside their texts |
| TuiCore.MergeIsOverlay | client/zig/src/tui/model.zig:612-639 | merging overwrites exactly the answered ids, appends unknown ones, moves nothing |
| Keys.ListKeys | client/zig/src/tui/model.zig:691-758 | every key of the list but space: what it opens, asks for or moves, and that nothing opens or is asked for while a request is out |
| Keys.FieldKeys | client/zig/src/tui/model.zig:1076-1131 | on the pane up and down go through the seven fields in their order and stop at the ends; Enter opens, Escape leaves |
| Keys.EditorsOpen | client/zig/src/tui/model.zig:1148-1206 | what opens on a field: its text, with the cursor at the end, the picker's entry, or $EDITOR with the description |
| Keys.PickersSay | client/zig/src/tui/model.zig:1238-1269 | the status or priority each entry of a picker stands for |
| Keys.EditorKeys | client/zig/src/tui/model.zig:1208-1232 | every key but Enter and Escape goes to the open editor and nowhere else |
| Keys.ConfirmKeys | client/zig/src/tui/model.zig:939-970 | y deletes the task asked about, n and Escape call it off, nothing else acts |
| Keys.AddKeys | client/zig/src/tui/model.zig:972-1003 | Enter creates a task with the typed text, blanks at its ends aside, for a title and nothing else, unless that is empty or a request is out |
| Keys.FilterKeys | client/zig/src/tui/model.zig:1005-1066 | Enter takes the filter off, sets the parsed one, or, where the text does not parse, changes nothing |
| Keys.RepliesDo | client/zig/src/tui/model.zig:488-597 | what each reply does to tasks, mode and request |
| Keys.MovementKeys | client/zig/src/tui/model.zig:760-807 | down and j lead to the next selectable row, up and k to the one before, g to the first, G to the last |
| Keys.PageKeys | client/zig/src/tui/model.zig:839-858 | a page key leads to the row half the list's height away when that row can be selected |
| Keys.FoldsChange | client/zig/src/tui/model.zig:786-793 | right and l, left and h set the cursor's fold; no other event changes a fold |
| Keys.PaneChanges | client/zig/src/tui/model.zig:691-758 | which events open or close the pane, and which can change the filter |
| TuiRuns.StepKeepsInvIff | client/zig/src/tui/model.zig:465-680 | each step keeps "one request, known to the client, nothing being typed meanwhile", iff it is not the complaint of an $EDITOR that would not start while a request is out |
| TuiRuns.ComplaintAllowsTwo | client/zig/src/tui/app.zig:590-624 | in that case the next key puts a second request beside the first |
| TuiRuns.TwoRequestsCanBeOut | client/zig/src/tui/app.zig:590-624 | the run from the shell's start, every step of it possible, that gets there: $EDITOR does not start, queued keys leave the editor and refresh, the complaint arrives, space |
| TuiRuns.RunStaysQuiet | client/zig/src/tui/model.zig:1112-1123 | in every run, whatever has gone wrong: while the client waits, no editor, filter or confirmation is open, and nothing is being typed but the title of the task being created |
| TuiRuns.OneRequestAtATime | client/zig/src/tui/model.zig:1112-1123 | in every run in which no complaint about $EDITOR meets a request that is out: at most one request is out, and it is the one the client waits for |
| TuiRuns.RepliesDrain | client/zig/src/tui/model.zig:488-597 | every reply brings the client nearer to being free |
| TuiRuns.EditorComesBack | client/zig/src/tui/model.zig:641-680 | whatever was pressed meanwhile, a failed or conflicting commit reopens the editor on the same task and field with exactly what was committed |
| TuiRuns.ReapplyIsOneKey | client/zig/src/tui/model.zig:558-578 | after a conflict one Enter commits the same change against the server's copy and version, unless the value no longer parses or leaves no title |
| TuiRuns.CommitIsFaithful | client/zig/src/tui/model.zig:1302-1417 | every commit names the editor's (or the status key's) task, the status key's sets Done on an open task and Todo on a closed one; a commit takes version and content from one stored copy, applies exactly the editor's patch, and moves the editor into the request |
| TuiRuns.SpaceTwice | client/zig/src/tui/model.zig:862-889 | space on an open task commits it as done; after the answer space commits it as todo again |
| TuiRuns.CommitChangesItsFieldIff | client/zig/src/tui/model.zig:1234-1417 | it changes only the open field, iff it is not a returned text that meets another field's editor |
| TuiRuns.ReturnedTextGoesHomeIff | client/zig/src/tui/model.zig:1376-1417 | a returned text is committed to the task its $EDITOR was opened for iff the mode at its return is an editor of that very task, and to another task iff it is an editor of that one |
| TuiRuns.ReturnedTextIsLostIff | client/zig/src/tui/model.zig:1376-1401 | a returned text is dropped iff no editor is open; else it is committed or stays in the editor |
| TuiRuns.FirstTextIsCommitted | client/zig/src/tui/app.zig:590-624 | in every run in which, after a description was opened with no request out, nothing came back and no Escape was handled, the first text to come back is committed to that task against the stored copy it was opened on; it is its own iff no other $EDITOR was still running at the opening, and the next text to come back is lost |
| TuiRuns.StrayTextLandsElsewhere | client/zig/src/tui/model.zig:1378-1401 | the keys that send it astray, into another task's title editor or description editor |
| TuiRuns.EditorSteps | client/zig/src/tui/model.zig:1148-1232 | one event keeps an editor on its task and field, opens one at the cursor, or gives back the committed one |
| TuiRuns.EveryEditorWasOpened | client/zig/src/tui/model.zig:51-60 | in every run that can happen, an open or committed editor was opened on that very task and field by an Enter at the cursor |
| TuiRuns.EveryRetainedTextCameBack | client/zig/src/tui/model.zig:1376-1401 | in every run that can happen, a text an editor or a commit holds was given back by the $EDITOR of some task, while that very task and field was being edited |
| TuiRuns.EveryCommitWasChosen | client/zig/src/tui/model.zig:1302-1417 | hence in every run that can happen a commit goes to the task, under the stored version, and changes only the field, that the user chose with Enter; of a text from $EDITOR this is said when it is its own task's text, given back to that task's description editor |
| TuiRuns.OtherCommandsAreAskedFor | client/zig/src/tui/model.zig:915-1003 | a delete needs 'y' at that task's own prompt; a create carries the trimmed prompt alone and leaves it open |
| TuiRuns.EveryDeleteWasAskedFor | client/zig/src/tui/model.zig:910-963 | in every run that can happen a confirmation is about the task under the cursor when 'x' was pressed |
| TuiRuns.FailedCreateKeepsTitle | client/zig/src/tui/model.zig:985-1003 | a failed create leaves the prompt with what was typed, and Enter asks again |
| TuiRuns.AcceptedCommitChangesOneField | server/store.go:263-327 | a commit the server accepts changes, of all its tasks, that one task and that one field, however old the client's copy |
| Tui.Model.constructor | client/zig/src/tui/app.zig:742-757 | an empty list true to the filter, strategy and clock it was started with |
| Tui.Model.Start | client/zig/src/tui/app.zig:810-821 | sized, and with the first request recorded: the start of every run in TuiRuns |
| Tui.Model.ReplaceTasks | client/zig/src/tui/model.zig:266-321 | installs the tasks with their index and remembers the cursor's row |
| Tui.Model.MergeTasks | client/zig/src/tui/model.zig:612-639 | the nested loops leave the merged set |
| Tui.Model.Recompute | client/zig/src/tui/model.zig:324-411 | afterwards rows, scores and order fit the tasks, the cursor is on its task if shown and else on the row nearest to where it stood, inside the viewport |
| Tui.Model.SharedEvent | client/zig/src/tui/model.zig:486-597 | mode, request, tasks and view settings become what the functions say, the screen is true afterwards, and the cursor keeps its task or its place, unless a task was just created |
| Tui.Model.OnTasksLoaded | client/zig/src/tui/model.zig:495-518 | fresh tasks close a mode only when its task is gone; the cursor keeps its task, or goes to the row nearest to where it stood |
| Tui.Model.OnCreateOk | client/zig/src/tui/model.zig:519-533 | the created task joins the set, the pane opens on its priority, and the cursor goes to it if its row is shown, else to the row nearest to where it stood |
| Tui.Model.MoveCursor | client/zig/src/tui/model.zig:760-784 | the cursor goes to the adjacent selectable row, or where the rebuilt rows no longer show it, nearest to it; without one it stays |
| Tui.Model.JumpToEdge | client/zig/src/tui/model.zig:799-807 | the same for the first or the last selectable row |
| Tui.Model.PageBy | client/zig/src/tui/model.zig:839-858 | the same for the row half a page on |
| Tui.Model.Update | client/zig/src/tui/model.zig:456-483 | one event, whatever it is: mode, request, tasks and command are the event function's; a movement key takes the cursor to the one row it leads to, a created task gets it, and after anything else it keeps its task or the nearest row to its place; folds, pane, filter and size change as the key says; among trees right leaves the cursor's row open with a row for each child below it, and left closed with nothing deeper below; the rows fit the tasks, the filter and the folds again, and the cursor stands on a shown row inside the viewport |
| Screen.LeadsIsUnique | client/zig/src/tui/model.zig:760-858 | a movement key leads to one row at most |
| Screen.TopRowsInOrder | client/zig/src/tui/model.zig:356-392 | among trees, of two rows at the top the upper one comes first in the chosen order: by urgency the tree with something open, then the one that holds the more urgent task; else the open root, then as the strategy says; on a tie the older, then the smaller id |
| Screen.RowsTell | client/zig/src/tui/ledger.zig:120-271 | among trees every row of the screen unfolds as it should and is open iff the user left it so or, never touched, something below needs attention |
| Screen.FoldedIsStillShown | client/zig/src/tui/model.zig:786-793 | folding or unfolding a task leaves its own row on the screen |
| Screen.NothingIsHidden | client/zig/src/tui/model.zig:324-381 | so after every event every task that matched the filter by the clock of the last rebuild is on a row or below a collapsed one |
| Screen.ArrivalOrderIrrelevant | client/zig/src/tui/model.zig:324-381 | on treelike data the rows are the same, in the same order, however the server's map iteration ordered the tasks |
| RecencyList.RunIsSound | client/bot/actions.go:81-137 | over every run keys stay unique, the order is the order of use, the length stays within the capacity |
| RecencyList.LookupIsExact | client/bot/actions.go:172-192 | either key of a record finds exactly the action stored |
| RecencyList.GoneMeansReplacedOrStale | client/bot/actions.go:115-170 | a record disappears only when its prompt is registered anew, or when the list is full of records used more recently |
| Registry.Registry.Put | client/bot/actions.go:139-148 | list and both maps move as the list of records does |
| Registry.Registry.PutPrompt | client/bot/actions.go:150-170 | the same; no stale element of the prompt is left behind |
| Registry.Registry.Get | client/bot/actions.go:172-181 | answers as the list of records does and makes the record the most recent |
| Registry.Registry.GetByPrompt | client/bot/actions.go:183-192 | the same by prompt |
| Registry.Registry.Insert | client/bot/actions.go:113-137 | front insertion, then eviction out of both maps down to the capacity |

## Left out

- HTTP handlers, middleware, authentication, rate limiting, configuration, JSON text: plumbing over libraries; a saved state is taken to load as itself, and an absent list as an empty one.
- Telegram, message texts, keyboards, escaping; the terminal shell, painting, suspension for $EDITOR, threads: foreign calls. Their events are parameters.
- Memory management and slice borrowing. Of ownership only the editor's way between the mode and the request is kept. The store class works on values; that its in-place edits of child lists never reach the live state is proved beside it, in Slices, where tags and the nullable times, which are never written through, have no counterpart.
- The wording and retraction of the status line, the painting of the `load_failed` page and the promoted-children count: they change no task, mode or request.
- The filter expression parser: its verdict is a parameter of the event.
- Command-line parsing and formatting, `/find`, truncation of titles, wording of due dates: they would add easy members.
- Unknown status or priority texts in the clients: the Zig client decodes them as the first of their kind; the model leaves such texts in place and treats them as the first.
- The Zig standard library's calendar (`std.time.epoch`), integer parsing and UTF-8 functions are not part of this repository; they are modelled from their documented behaviour.
- Editors opened on bytes that are not well-formed UTF-8.
- The library sort and the linked list: any correct sort, and a sequence of shared elements.
- Scores.Scorer.Walk: says only that scores are honest (what they claim is there) on cyclic data, because the code declares those numbers approximate.
- Dates.PrintedParsesBack: takes the printer's year as a mathematical number, because the calendar it uses is not part of this repository; past the year 65535 that year overflows 16 bits.
- Screen.NothingIsHidden: speaks of the clock of the last rebuild; between rebuilds a task can become overdue, and is shown with the next event that rebuilds, as in the source.
- Tui.Model.Update: holds the line editor of a mode as the text it stands for; that the bytes follow is LineEditor.ByteEditor.Handle.
- Registry.Registry.Put: takes the fresh random token as a parameter.
