# Mudlet: verified models of its stateful cores

A Dafny 4.11 project about the parts of Mudlet where correctness depends on what
happens across many calls: signing in over GMCP, the editor's undo history, the
deferred deletion of aliases, keys and actions, quoting for Lua, reading Lua's
variables, moving stored credentials, and the plan-graph scripts. Check it with
`dafny verify dfyconfig.toml`.

## What is modelled

- **Signing in** (`CharLogin*.dfy`). The GMCP Char.Login controller as a step
  relation over frames, connection events, throttle timers and asynchronous reads
  of a keychain that other instances share; reads and timers in flight are
  explicit, so every interleaving is a run. Everything the controller does is
  logged; a monitor states what may follow what, an invariant ties the two, and
  the theorems are about all runs: what may not happen (`CharLoginRuns`) and what
  does happen at each event (`CharLoginAnswers`). `CharLoginController` is the object
  with its mutable fields, each handler proved to perform the step.
- **Undo and redo** (`Forests`, `Renaming`, `Editor*.dfy`). Ordered forests whose
  nodes are destroyed and rebuilt under new ids while commands store the old ones.
  The editor is proved to follow a plain list of document versions, as long as no
  entry is redone while that would leave ids behind (`RedoSafe`, which can be read
  off the stack). `EditorLimits` gives the exact conditions for the two shapes of
  macro that the limit is about, `EditorEdits` says which edits are taken back
  together. `EditorUndoStack` is the stack as an object.
- **Undoing deletions** (`RestoreOrder`, `EditorDelete`, `Deletion*.dfy`,
  `RestorePositions`, `RestoredForest`). Any selection, folders with their contents
  and items inside other selected items included: the restoring order, the ids
  written back by name and parent, undo and redo any number of times, which entries
  and which other commands follow, and when items are back at their positions.
- **Deferred deletion** (`DeferredDeletion`, `Unit*.dfy`). One class for the alias,
  key and action units, against a relation that says what scripts do. Scripts
  may uninstall, kill, register, switch and start further processing while nodes are
  being walked; every place that follows a link to a node requires it live. What a
  pass comes to is said without the walk: which scripts run, for which nodes.
- **Quoting for Lua** (`LuaLiteral`). The quoter against a lexer for long brackets
  as section 2.1 of the Lua 5.1 Reference Manual describes them.
- **Reading Lua's variables** (`LuaWalk`). The interpreter's stack, its registry
  and the depth counter, on every heap, with a panic possible at every allocation,
  and what is read: the unfolding of the heap, minus exactly what stops it.
- **Stored credentials** (`CredentialChain`). Three ways a keychain names entries,
  and a chain of reads and migrations in which any job may fail.
- **The plan graph** (`PlanGraph`). The validator and the scheduler.

## Where the code and its intent part

- `DeletionRounds.RedoAlone`: the command writes ids back to the first entry with the
  same name and parent, so by itself its redo is exact only when those pairs are
  distinct. `RedoExact`: the stack's walk over the changes reaches the command as
  well and makes up for it.
- `DeletionEntries.EntriesFollow` and `StackFollows`: of two items below a deleted
  folder with the same name and parent, or listed twice, one entry keeps its old id;
  and commands elsewhere on the stack lose track of everything inside deleted folders.
- `RestoredForest.SelectionRestored`: the editor records all positions before it
  deletes anything (`src/dlgTriggerEditor.cpp:3020-3045`), while undo puts items
  back last to first; `RestorePositions.TopDownReorders` shows that three siblings
  listed from the top never come back in order.
- `EditorLimits.MacroExact` and `PasteExact`: the stack learns new ids only after a
  whole macro has been redone, and only those of its first command, so a paste of
  several items that is undone and redone leaves later commands behind.
- `LuaLiteral.StricterThanNeeded`: the comment on quoting says reopening is
  rejected by Lua 5.1; Lua rejects it at level 0 only.
- `CredentialChain.ReplacedExactly`: a failed read that is not a missing entry can
  put an older password back in place of the current one.

## Model

| member | source | states |
|---|---|---|
| `CharLoginRuns.AtMostTwoReplays` | src/GMCPAuthenticator.cpp:669-807 | Over every run, between two `Char.Login.Default` frames at most two `Reconnect` frames are sent, and the second carries a token with a different hash |
| `CharLoginRuns.RejectionBarsNextAttempt` | src/GMCPAuthenticator.cpp:931-942 | After a rejection, or a superseded recovery that re-arms the latch, the next attempt is barred from tokens and its whole Default epoch sends no `Reconnect`, across resets and throttled attempts, unless a rotated token was replayed in between |
| `CharLoginRuns.BarredOnlyByRejection` | src/GMCPAuthenticator.cpp:682-683 | Conversely an attempt is barred only because such a rejection came before it with no release since |
| `CharLoginRuns.RotationFollowsRejection` | src/GMCPAuthenticator.cpp:709-752 | A rotated token is replayed only after the game rejected a different hash in the same epoch |
| `CharLoginRuns.OnlyOfferedMethods` | src/GMCPAuthenticator.cpp:1042-1071 | The stored password is sent, and the client-driven flow started, only if the latest advertisement offered it |
| `CharLoginRuns.SupersededReadIsSilent` | src/GMCPAuthenticator.cpp:694-697 | A read overtaken by a newer Default or a connection change sends nothing and asks for nothing; it rewrites the store only on seeing the very token that was rejected |
| `CharLoginRuns.StaleRead` | src/GMCPAuthenticator.cpp:983-987 | The same for one callback in any state whose captured counter differs |
| `CharLoginRuns.ReplayNeedsEncryption` | src/GMCPAuthenticator.cpp:247-260 | A token is sent only on an encrypted connection, with the account and hash just read from the store |
| `CharLoginRuns.OneLiveRead` | src/GMCPAuthenticator.cpp:964-985 | At most one read in flight is not superseded, and none while a result is awaited |
| `CharLoginRuns.AttemptsAreSpaced` | src/GMCPAuthenticator.cpp:903-929 | On one connection two attempts are at least one interval apart, however many Defaults arrive |
| `CharLoginRuns.OneLiveTimer` | src/GMCPAuthenticator.cpp:917-929 | A live deferred attempt exists exactly when the pending flag is set, and never two |
| `CharLoginRuns.DefaultIsServed` | src/GMCPAuthenticator.cpp:903-929 | With punctual timers every Default on a surviving connection is served within one interval with the latest advertised capabilities, or is still pending within it |
| `CharLoginMonitor.StepKeeps` | src/GMCPAuthenticator.cpp:820-851 | Every step, under every interleaving, keeps the invariant that ties the controller to a monitor of what has been sent |
| `CharLoginMonitor.GenerationExact` | src/GMCPAuthenticator.h:176-180 | Comparing the wrapped 32-bit counters tells attempts apart while a job is younger than one lap |
| `CharLoginMonitor.GenerationLaps` | src/GMCPAuthenticator.h:176-189 | and is wrong exactly on whole laps |
| `CharLoginAnswers.StoredSignInAnswered` | src/GMCPAuthenticator.cpp:970-1039 | In every run a stored sign-in whose read nothing has superseded is answered once: its token is replayed if and only if the read may use one, the account is named, a token is there and the transport is encrypted; else the provider is resumed if account and provider are there; else credentials, the client-driven flow or the hand-off, by the latest advertisement. A result is awaited afterwards exactly if a token was sent, and which one is remembered |
| `CharLoginAnswers.SavedSignInIsReplayed` | src/GMCPAuthenticator.cpp:931-1023 | From an attempt that may use a token to the replay: if nothing supersedes it before the store has been read, exactly the stored token is sent for its account and its result awaited |
| `CharLoginAnswers.DefaultAnswered` | src/GMCPAuthenticator.cpp:820-929 | An advertisement is noted as it came, the client-driven flow only on an encrypted transport; it joins a deferred attempt, is served at once if a whole interval has passed, and otherwise defers one attempt to exactly the end of the interval |
| `CharLoginAnswers.DeferredAnswered` | src/GMCPAuthenticator.cpp:921-928 | A deferred attempt whose connection is still the same is made for what was advertised last; any other does nothing |
| `CharLoginAnswers.AttemptIs` | src/GMCPAuthenticator.cpp:931-962 | Which attempt is made, if and only if: barred after a rejection, stored credentials if offered and present, none of the stored sign-in without OAuth, a token read otherwise; and what each sends or starts |
| `CharLoginAnswers.ResultAnswered` | src/GMCPAuthenticator.cpp:609-686 | A result ends the wait for it; a failed replay bars the next attempt and starts one read holding the hash and account of the latest replay and whether it was the second; any other failure is a failed login |
| `CharLoginAnswers.RecoveryAnswered` | src/GMCPAuthenticator.cpp:686-806 | In every run, after a rejection: another instance's token is replayed once, if and only if the store holds one, nothing has superseded the read and the transport is encrypted; else the dead token is dropped, keeping account and provider, and a new connection asked for; a superseded read touches the store only if it saw the rejected token, and otherwise bars the next attempt |
| `CharLoginAnswers.RotatedTokenIsReplayed` | src/GMCPAuthenticator.cpp:669-752 | From the rejection of the first token to the replay: the token found in the store is sent if and only if it is another one |
| `CharLoginAnswers.TokenAnswered` | src/GMCPAuthenticator.cpp:853-901 | A token that comes with an account is stored with the provider named last since the latest advertisement, by the game or by the stored sign-in, and announced once |
| `CharLoginAnswers.OthersAnswered` | src/GMCPAuthenticator.cpp:75-93 | Connecting and disconnecting forget the latest and any deferred attempt and supersede what is in flight, but neither the bar on tokens nor what was advertised |
| `CharLoginController.Authenticator.constructor` | src/GMCPAuthenticator.cpp:70-81 | Starts in the initial state of the specification |
| `CharLoginController.Authenticator.ResetForNewConnection` | src/GMCPAuthenticator.cpp:83-93 | New state: both counters advanced, nothing pending, no attempt remembered; the latch untouched |
| `CharLoginController.Authenticator.ResetPerConnectionState` | src/GMCPAuthenticator.cpp:95-106 | New state: per-connection facts cleared, the attempt counter advanced; the latch untouched |
| `CharLoginController.Authenticator.SelectMethod` | src/GMCPAuthenticator.cpp:1042-1071 | Sends credentials, starts the client-driven flow or hands off, in that order of preference |
| `CharLoginController.Authenticator.ReadStoredSignIn` | src/GMCPAuthenticator.cpp:964-970 | One more read in flight, holding the current counter and whether a token may be used |
| `CharLoginController.Authenticator.TryReconnect` | src/GMCPAuthenticator.cpp:931-962 | The attempt of the specification: the latch is consumed, then credentials, then no OAuth, then a token read |
| `CharLoginController.Authenticator.ScheduleSignInAttempt` | src/GMCPAuthenticator.cpp:903-929 | Folds into a pending attempt, attempts at once, or defers to the end of the interval |
| `CharLoginController.Authenticator.HandleDefault` | src/GMCPAuthenticator.cpp:108-182 | Capabilities replaced, connection facts reset, an attempt scheduled |
| `CharLoginController.Authenticator.DeferredAttemptFires` | src/GMCPAuthenticator.cpp:921-928 | The deferred attempt runs only if its schedule is still the current one |
| `CharLoginController.Authenticator.RetryOrDropRejectedToken` | src/GMCPAuthenticator.cpp:669-686 | The latch is set at once and a recovery read started with the facts captured before it |
| `CharLoginController.Authenticator.HandleAuthResult` | src/GMCPAuthenticator.cpp:609-667 | A failed reconnect starts a recovery; any other failure stops reconnecting |
| `CharLoginController.Authenticator.SendReconnect` | src/GMCPAuthenticator.cpp:247-298 | Sends only on an encrypted connection, and says whether it did |
| `CharLoginController.Authenticator.OnStoredSignIn` | src/GMCPAuthenticator.cpp:970-1039 | The callback of the stored sign-in read, branch by branch |
| `CharLoginController.Authenticator.OnRecoveryRead` | src/GMCPAuthenticator.cpp:686-806 | The callback of the recovery read, branch by branch |
| `CharLoginController.Authenticator.StoreReadArrives` | src/GMCPAuthenticator.cpp:964-1040 | A completed read leaves the set in flight and runs its callback |
| `CharLoginController.Authenticator.HandleAuthToken` | src/GMCPAuthenticator.cpp:853-901 | A token from the game is stored with its account and provider |
| `CharLoginController.Authenticator.HandleAuthUrl` | src/GMCPAuthenticator.cpp:418-458 | The provider named by the game is remembered |
| `CharLoginController.Authenticator.ConnectionBeginsOrEnds` | src/GMCPAuthenticator.cpp:75-81 | Connecting and disconnecting reset the schedule and the attempt |
| `LuaLiteral.Quote` | src/LuaLiteral.cpp:24-43 | The level is the least safe one, is at most the length of the text, and the escalation ends |
| `LuaLiteral.LevelExact` | src/LuaLiteral.cpp:26-34 | For text without carriage returns, a quoted text lexes back, before any following text, if and only if the level is one Lua can read it at |
| `LuaLiteral.RoundTrip` | src/LuaLiteral.cpp:38-42 | The literal lexes back to exactly the text and ends exactly where it ends, whatever follows, if and only if the text has no carriage return |
| `LuaLiteral.StricterThanNeeded` | src/LuaLiteral.cpp:26-29 | The reopening test is stricter than Lua 5.1 above level 0: a text quoted at level 2 that level 1 would carry |
| `Renaming.Simultaneous` | src/EditorUndoStack.cpp:261-326 | Applying recorded id pairs one after another is one simultaneous substitution that merges no two ids |
| `Renaming.StaleIdsMerge` | src/EditorUndoStack.cpp:261-326 | Without fresh ids the same loop would merge two nodes |
| `Renaming.RenameIsFreshen` | src/EditorAddItemCommand.cpp:345-351 | Listing old and new nodes in the same pre-order makes the renamed tree the recreated one |
| `Renaming.RenameInsert` | src/EditorUndoStack.cpp:288-326 | Renaming commutes with inserting a tree |
| `Renaming.RenameRemove` | src/EditorUndoStack.cpp:288-326 | and with removing one |
| `Renaming.OrderFreshen` | src/EditorItemXMLHelpers.cpp:467-561 | Recreated nodes, listed in pre-order, carry the consecutive ids after the largest in use |
| `Forests.RemoveInsert` | src/AliasUnit.cpp:118-178 | Taking out a tree that was just put in gives both pieces back |
| `Forests.InsertRemove` | src/AliasUnit.cpp:118-178 | Putting a tree back under its parent at its position restores the ordered forest exactly |
| `EditorRuns.EditorFollowsVersions` | src/EditorUndoStack.cpp:175-286 | For every history of adds, moves, edits, toggles and macros of any of them, and every interleaving of undo and redo in which no entry is redone while other commands store ids of trees it adds that the stack will not rename, the document is the current entry of a plain list of versions, ids aside, and its ids are well formed |
| `EditorRuns.StepInv` | src/EditorUndoStack.cpp:139-286 | Every user action, undo and redo keeps the invariant that ties forest, stack and stored ids to the versions under one renaming |
| `EditorRuns.UndoInv` | src/EditorUndoStack.cpp:175-227 | Undo moves to the previous version |
| `EditorRuns.RedoInv` | src/EditorUndoStack.cpp:229-286 | Redoing any entry that is safe to redo, with any number of additions in it, moves to the next version |
| `EditorRuns.RedoAddEntry` | src/EditorUndoStack.cpp:244-274 | Redoing an entry that begins with an addition: the walk over the stack may come after all its commands |
| `EditorRuns.RedoShunned` | src/EditorUndoStack.cpp:246-251 | Redoing an addition that no other command refers to needs no walk: the stack as it is leads through the same versions, ids aside |
| `EditorRuns.ActInv` | src/EditorUndoStack.cpp:139-173 | Pushing an entry drops the redoable ones and adds a version |
| `EditorRuns.PropertyInv` | src/EditorModifyPropertyCommand.cpp:296-328 | An edit of one property merges into the last command exactly when the list of versions, by its own notes, replaces its last version |
| `EditorHistory.UndoStep` | src/EditorUndoStack.cpp:175-227 | Undoing one command restores the document before it, whatever its kind |
| `EditorHistory.RedoStep` | src/EditorUndoStack.cpp:229-286 | Redoing one command other than an addition restores the document after it |
| `EditorHistory.RedoAddStep` | src/EditorAddItemCommand.cpp:295-351 | Redoing an addition gives the document after it with the tree renamed, and the recorded pairs are that renaming |
| `EditorHistory.RemapIsRename` | src/EditorAddItemCommand.cpp:571-582 | Walking a command once per pair renames every id it stores at once |
| `EditorHistory.RenameHistory` | src/EditorUndoStack.cpp:288-326 | Renaming a whole history by pairs that move one tree to fresh ids gives a history again |
| `EditorHistory.TreePairs` | src/EditorAddItemCommand.cpp:42-75 | The pairs recorded for a tree are those of its pre-order listing |
| `EditorLimits.MacroExact` | src/EditorUndoStack.cpp:244-286 | A macro of any number of additions, at any parents, with an edit, switch or move after them survives undo and redo if and only if that command is about items that were there before the macro, or about an added one but changes nothing |
| `EditorLimits.PasteExact` | src/EditorUndoStack.cpp:244-286 | After such a macro of additions, an edit, switch or move recorded later survives undoing and redoing both if and only if it is about nothing in the trees that later commands of the macro added, or about an item of theirs but changes nothing |
| `EditorLimits.MovesAreProper` | src/EditorMoveItemCommand.cpp:43-114 | In every reachable state a move is undone and redone from where its item hangs to a node outside it |
| `EditorLimits.MoveAndBack` | src/EditorMoveItemCommand.cpp:83-114 | Moving an item anywhere outside itself and undoing it restores the exact forest; no node is lost or duplicated |
| `EditorEdits.ActionDone` | src/EditorMoveItemCommand.cpp:43-114 | Every action leaves the document as asked: a new or moved item under its parent at its position with everything else as it was, an edited or switched one with just that changed |
| `EditorEdits.PossibleExactly` | src/EditorMoveItemCommand.cpp:43-114 | An item can be moved anywhere but into itself |
| `EditorEdits.EditorIsFaithful` | src/EditorModifyPropertyCommand.cpp:296-328 | In every run the document is the current version of a list that keeps its own note of each edit of one property; the list takes an edit into the version before it if and only if that was made by an edit of the same property of the same item no more than 500 ms ago |
| `EditorEdits.SlowEditsApart` | src/EditorModifyPropertyCommand.cpp:308-317 | An edit undone right away takes exactly itself back if the edit before it was of another item or property or longer ago than the window |
| `EditorEdits.EditAfterAction` | src/EditorModifyPropertyCommand.cpp:298-306 | and whenever the operation before it was something else |
| `EditorEdits.BurstUndoneAtOnce` | src/EditorModifyPropertyCommand.cpp:313-327 | Rapid edits of one property, however many, are taken back by one undo, which restores the document before the first |
| `EditorUndoStack.UndoStack.constructor` | src/EditorUndoStack.cpp:29-61 | Starts with an empty stack on the given document |
| `EditorUndoStack.UndoStack.CollectIds` | src/EditorAddItemCommand.cpp:42-75 | Lists a subtree in pre-order |
| `EditorUndoStack.UndoStack.Recreate` | src/EditorItemXMLHelpers.cpp:467-561 | Rebuilds a snapshot under consecutive new ids |
| `EditorUndoStack.UndoStack.RecordChanges` | src/EditorAddItemCommand.cpp:345-351 | Records the pairs whose ids differ, if the listings are equally long |
| `EditorUndoStack.UndoStack.UndoCommand` | src/EditorAddItemCommand.cpp:42-293 | Undoing a command of each kind is the specification's |
| `EditorUndoStack.UndoStack.RedoCommand` | src/EditorAddItemCommand.cpp:295-569 | Redoing a command of each kind is the specification's |
| `EditorUndoStack.UndoStack.RemapItemIDs` | src/EditorUndoStack.cpp:288-326 | Every command on the stack, inside macros too, has the old id replaced |
| `EditorUndoStack.UndoStack.Undo` | src/EditorUndoStack.cpp:175-227 | The new state is the specification's undo, last child of a macro first |
| `EditorUndoStack.UndoStack.Redo` | src/EditorUndoStack.cpp:229-286 | The new state is the specification's redo, the recorded changes applied to the whole stack afterwards |
| `EditorUndoStack.UndoStack.ApplyChanges` | src/EditorUndoStack.cpp:261-274 | The pairs are applied one after another, in order |
| `EditorUndoStack.UndoStack.PushCommand` | src/EditorUndoStack.cpp:139-151 | The redoable entries go and the new one is last |
| `EditorUndoStack.UndoStack.UndoEntry` | src/EditorUndoStack.cpp:175-200 | The commands of an entry undone last to first |
| `EditorUndoStack.UndoStack.RedoEntry` | src/EditorUndoStack.cpp:244-262 | The commands of an entry redone first to last |
| `EditorUndoStack.UndoStack.MergeWith` | src/EditorModifyPropertyCommand.cpp:296-328 | The command on top takes a later edit in if and only if item and property are the same and the window has not run out; it keeps its old state and starts its time again |
| `EditorUndoStack.UndoStack.ModifyProperty` | src/EditorUndoStack.cpp:139-151 | An edit of one property is done and then taken into the command on top or pushed |
| `RestoreOrder.Sort` | src/EditorDeleteItemCommand.cpp:52-103 | The restoring order is a permutation of the items, has parents first if and only if parents run in no cycle, lists the items without a listed parent in reverse and ahead of what is under them |
| `RestoreOrder.Pass` | src/EditorDeleteItemCommand.cpp:57-91 | One pass takes what it can and makes progress unless every remaining item is stuck |
| `RestoreOrder.SomeRestorable` | src/EditorDeleteItemCommand.cpp:64-83 | While items remain, an acyclic parent relation leaves one that can be restored |
| `RestoreOrder.ParentsFirstRanks` | src/EditorDeleteItemCommand.cpp:93-102 | A parents-first arrangement exists only if parents run in no cycle |
| `RestoreOrder.AncestorsFirst` | src/EditorDeleteItemCommand.cpp:52-103 | Every listed ancestor, at any depth, precedes its descendants |
| `EditorDelete.DeleteCommand.constructor` | src/EditorDeleteItemCommand.cpp:34-39 | Holds the recorded items |
| `EditorDelete.DeleteCommand.Find` | src/EditorDeleteItemCommand.cpp:139-141 | The first entry with this name and parent |
| `EditorDelete.DeleteCommand.NoteParents` | src/EditorDeleteItemCommand.cpp:105-112 | Which ids are listed and the parent noted for each, before anything is rebuilt |
| `EditorDelete.DeleteCommand.AdoptLater` | src/EditorDeleteItemCommand.cpp:185-200 | Every entry still to come that was under the rebuilt item goes under its new id, and so does one of the command's own for each |
| `EditorDelete.DeleteCommand.MoveChildren` | src/EditorDeleteItemCommand.cpp:218-223 | Every entry under an old id goes under the new one |
| `EditorDelete.DeleteCommand.UpdateChildIDs` | src/EditorDeleteItemCommand.cpp:202-230 | The rebuilt contents are matched with entries by name and parent, a node before its children, and its entry and what is under it take the new id |
| `EditorDelete.DeleteCommand.Rebuild` | src/EditorDeleteItemCommand.cpp:138-231 | One item rebuilt at its position, its id written back, the change recorded, and the entries below it brought up to date |
| `EditorDelete.DeleteCommand.Undo` | src/EditorDeleteItemCommand.cpp:42-583 | The new document, entries and changes are those of going through the sorted entries, skipping what comes back inside a parent |
| `EditorDelete.DeleteCommand.Redo` | src/EditorDeleteItemCommand.cpp:690-841 | Every listed item that still carries its name goes, unless it goes with its parent |
| `EditorDelete.DeleteCommand.RemapItemID` | src/EditorDeleteItemCommand.cpp:907-917 | One id replaced in every entry, as item and as parent |
| `EditorDelete.DeleteCommand.FollowChanges` | src/EditorUndoStack.cpp:205-219 | The stack's walk over the recorded changes covers this command too |
| `DeletionOrder.AdoptAll` | src/EditorDeleteItemCommand.cpp:185-200 | Adopting one entry by name for each one still to come moves all of them, if they are all still to come |
| `DeletionOrder.AnyOrder` | src/EditorDeleteItemCommand.cpp:42-231 | Undo comes to the same document, entries and changes for every order the sorting may give |
| `DeletionRounds.WhereWritten` | src/EditorDeleteItemCommand.cpp:138-231 | While undo goes on, a rebuilt item's id goes to the first entry with its name and parent and to no other, and every entry below a rebuilt item stays below something listed |
| `DeletionRounds.RedoExact` | src/EditorUndoStack.cpp:199-219 | After undo and the stack's walk over the changes, redo is back at the forest the deletion had left, whatever the names and wherever the items hang |
| `DeletionRounds.RedoAlone` | src/EditorDeleteItemCommand.cpp:138-147 | Without that walk it is so if and only if no two of the items rebuilt individually share name and parent |
| `DeletionRounds.RedoTakes` | src/EditorDeleteItemCommand.cpp:723-841 | Whatever the document has become, redo deletes exactly the outermost listed items that are still there under the name they had |
| `DeletionRounds.ListingAgain` | src/EditorDeleteItemCommand.cpp:170-231 | After undo the entries are again entries for items missing from the same forest, the same ones to be rebuilt individually |
| `DeletionRounds.RoundAndRound` | src/EditorDeleteItemCommand.cpp:42-231 | After any number of rounds exactly the items are gone again, and one more undo rebuilds what the first one did, kept items under their own ids |
| `DeletionListing.EditorListing` | src/dlgTriggerEditor.cpp:2966-2992 | The entries the editor makes, each selected item with everything below it, meet the conditions of those results, nested selections included |
| `DeletionListing.RootsOfListing` | src/EditorDeleteItemCommand.cpp:114-136 | The entries rebuilt individually are those of the outermost selected items, each once |
| `DeletionListing.OuterPrunes` | src/dlgTriggerEditor.cpp:3060-3086 | Deleting the selected items leaves what deleting the outermost ones leaves |
| `DeletionListing.DeletionRoundTrips` | src/EditorUndoStack.cpp:199-219 | For every selection in the editor and every sorting order, redo after undo is back at the deletion's result, and so is every later round |
| `DeletionListing.UndoRestores` | src/EditorDeleteItemCommand.cpp:105-183 | With positions noted as each item goes, undo gives the original ordered forest with exactly the deleted trees under new ids, numbered in the order of rebuilding |
| `DeletionListing.RenamingFacts` | src/EditorDeleteItemCommand.cpp:163-183 | That renaming merges no two ids, leaves kept items alone, and leaves shape, order and contents as they were |
| `DeletionEntries.EntriesFollow` | src/EditorDeleteItemCommand.cpp:202-230 | After undo every entry, contents of folders included, has the id and the parent that the renaming of the forest gives if and only if no two entries below rebuilt items share name and parent |
| `DeletionEntries.UndoneIsRecorded` | src/EditorDeleteItemCommand.cpp:170-231 | Then the command is as deleting the same items from the renamed forest would record it |
| `DeletionEntries.StackFollows` | src/EditorUndoStack.cpp:199-219 | The changes passed to the whole stack rename an id as the forest is renamed if and only if it is not the id of an item strictly inside a deleted one |
| `RestorePositions.PutBackExact` | src/EditorDeleteItemCommand.cpp:163-165 | Siblings put back at positions recorded beforehand are in their old order if and only if, for every entry, nothing before it is still missing or everything after it is |
| `RestorePositions.BottomUpWorks` | src/dlgTriggerEditor.cpp:3020-3045 | Listed bottom-up, the order always comes back |
| `RestorePositions.TopDownReorders` | src/dlgTriggerEditor.cpp:3020-3045 | Listed top-down, it comes back only for one item, or for two of which the second is the last sibling |
| `RestoredForest.ListExact` | src/EditorDeleteItemCommand.cpp:163-165 | Under each parent that was kept, the siblings are back in order if and only if the entries recorded under it meet that condition |
| `RestoredForest.UpFrontExact` | src/dlgTriggerEditor.cpp:3020-3045 | With all positions recorded before the first item goes, undo gives the original forest, deleted trees under new ids, if and only if under every parent the recorded entries meet that condition |
| `RestoredForest.SelectionRestored` | src/dlgTriggerEditor.cpp:3020-3045 | The same for any selection in the editor, through the command's undo, in terms of the outermost selected items |
| `DeferredDeletion.QueuedFacts` | src/AliasUnit.cpp:62-79 | Uninstalling queues each node of the package's trees once, children before parents |
| `DeferredDeletion.PruneQueued` | src/AliasUnit.cpp:72-99 | Deleting what is queued leaves exactly the other root trees, in order |
| `DeferredDeletion.FlushFrees` | src/AliasUnit.cpp:468-474 | Flushing a queue frees each pending node by itself at its first occurrence, each still live when its turn comes |
| `DeferredDeletion.CleanedExactly` | src/AliasUnit.cpp:446-475 | A cleanup frees every marked and every queued node exactly once, children before parents, and nothing else; both lists end empty and every id ever handed out is live and indexed or freed once |
| `DeferredDeletion.UninstallNowFacts` | src/AliasUnit.cpp:93-99 | Uninstalling outside processing frees the package's nodes in queue order and keeps exactly the other trees; the marks left are of live nodes |
| `DeferredDeletion.SafeOrder` | src/Tree.h:141-157 | Deleting live nodes one after another, each with its subtree, never meets a freed node if and only if none is listed after one above it |
| `DeferredDeletion.LateChild` | src/AliasUnit.cpp:460-474 | Why scripts must not attach under a queued node: one that does is freed before its late child's turn |
| `DeferredDeletion.QuietEachFacts` | src/AliasUnit.cpp:86-92 | Switching queued nodes off changes nothing else and leaves none of them on |
| `DeferredDeletion.DeferInv` | src/AliasUnit.cpp:72-92 | Uninstalling during processing frees nothing and keeps the invariant |
| `DeferredDeletion.AddRootInv` | src/AliasUnit.cpp:118-143 | Registering a root keeps the index exact and the queue in order |
| `DeferredDeletion.AddChildInv` | src/AliasUnit.cpp:248-259 | Registering a child under a node that is neither queued nor temporary keeps them too |
| `DeferredDeletion.KillInv` | src/AliasUnit.cpp:384-410 | Killing a temporary only marks it |
| `DeferredDeletion.DeleteAccounted` | src/AliasUnit.cpp:235-270 | Deleting a live node moves its subtree from the index to the freed nodes, each once |
| `DeferredDeletion.ReParentAccounted` | src/AliasUnit.cpp:145-178 | Moving a node loses and duplicates none, and leaves the index exact |
| `Units.Unit.constructor` | src/AliasUnit.cpp:36-39 | Starts empty |
| `Units.Unit.DeleteNode` | src/Tree.h:141-157 | Requires a node not freed before; it and its subtree leave the forest and the index |
| `Units.Unit.Collect` | src/AliasUnit.cpp:62-69 | Children in post-order after what is listed already |
| `Units.Unit.Enqueue` | src/AliasUnit.cpp:74-79 | The package's trees in post-order after what is queued already |
| `Units.Unit.SwitchOffQueued` | src/AliasUnit.cpp:86-92 | Every queued node is off and no longer marked |
| `Units.Unit.FreeInline` | src/AliasUnit.cpp:93-99 | The loop without a record of what it freed equals the flush, its queue having no duplicates |
| `Units.Unit.FreeMarked` | src/AliasUnit.cpp:452-459 | The marked nodes are freed in some order, each once |
| `Units.Unit.FreeQueued` | src/AliasUnit.cpp:468-474 | The queued nodes not freed yet are freed in order |
| `Units.Unit.Execute` | src/TAction.cpp:171-178 | A button's script frees nothing, not even when it ends |
| `Units.Unit.RegisterNode` | src/AliasUnit.cpp:221-276 | A new last root or last child under the next id, in the tree and in the index; nothing under a queued or temporary node |
| `Units.Unit.KillNode` | src/AliasUnit.cpp:384-410 | The first root of that name that is temporary and not marked yet is marked and switched off, and the answer says whether there was one |
| `Units.Unit.UninstallPackage` | src/ActionUnit.cpp:72-95 | Inside processing the package's nodes are queued and switched off and nothing is freed; outside they are freed at once, in the action unit together with what was queued |
| `Units.Unit.DoCleanup` | src/AliasUnit.cpp:446-475 | Does nothing inside processing; outside it is the exact cleanup, in some order of the marks, and both lists end empty |
| `Units.Unit.Run` | src/AliasUnit.cpp:278-311 | A script does its acts one after another, each as the relation says, whatever it nests |
| `Units.Unit.Perform` | src/AliasUnit.cpp:72-100 | One act of a script does what the relation says |
| `Units.Unit.Match` | src/TAlias.cpp:75-256 | Trying a node runs its script (`UnitPasses.PassRuns` says what that comes to) and tries its children as the relation says; every node followed is live, and it ends |
| `Units.Unit.MatchKids` | src/TAlias.cpp:248-252 | The children are tried in order, those added meanwhile included |
| `Units.Unit.TryChild` | src/TAlias.cpp:248-252 | The next child is live and is tried |
| `Units.Unit.WalkRoots` | src/KeyUnit.cpp:124-136 | The roots of the copied or of the live list are tried in order, up to the first match unless all are wanted |
| `Units.Unit.TryRoot` | src/AliasUnit.cpp:295-303 | A root that is switched off is passed over, any other tried |
| `Units.Unit.ProcessDataStream` | src/AliasUnit.cpp:278-311 | A pass, and its answer, are those of the relation; the outermost one ends with both lists empty |
| `Units.Unit.SwitchNode` | src/AliasUnit.cpp:357-381 | Only the switches of one node change |
| `UnitRuns.RunKeeps` | src/AliasUnit.cpp:278-311 | Every run of every script, with any nesting of uninstalling, killing, registering and processing, keeps the invariant, and while processing is under way frees nothing and drops nothing from the queue |
| `UnitRuns.ProcessKeeps` | src/AliasUnit.cpp:286-293 | A nested pass frees nothing; after the outermost one nothing is marked or queued |
| `UnitRuns.MatchKeeps` | src/TAlias.cpp:75-256 | The same for one node tried, alias or key |
| `UnitRuns.WalkKeeps` | src/KeyUnit.cpp:124-136 | and for a walk over the roots |
| `UnitRuns.UninstalledKeeps` | src/AliasUnit.cpp:72-100 | Uninstalling keeps the invariant in all three units, inside processing and outside |
| `UnitPasses.PassRuns` | src/AliasUnit.cpp:278-311 | In every pass, with any scripts, the unit changes only by scripts started one after another, each for a node that is there and on: the scripts of the outcomes used up, in order, for the nodes asked in pre-order up to the first script that changes the forest; only one where one match is enough; and the pass reports a match if and only if a script ran |
| `UnitPasses.SteadyPass` | src/AliasUnit.cpp:295-303 | As long as no script changes the forest, the scripts started are exactly those of the matching nodes, in pre-order |
| `UnitPasses.OneMatch` | src/TAlias.cpp:238-246 | Where somebody is asked, a pass in which one node matches is exactly a run of its script, and the cleanup |
| `UnitPasses.NobodyAsked` | src/AliasUnit.cpp:296-298 | A unit whose nodes are all off does exactly nothing but the cleanup |
| `UnitPasses.MatchedWent` | src/TAlias.cpp:75-256 | The same for one node and what is below it |
| `UnitPasses.KidsWent` | src/TKey.cpp:91-99 | and for its children |
| `UnitPasses.RootsWent` | src/KeyUnit.cpp:124-136 | and for the roots, of the copied or the live list |
| `UnitPasses.ScriptDone` | src/AliasUnit.cpp:72-143 | A script does everything it says, in order, and nothing else |
| `UnitPasses.ActDone` | src/AliasUnit.cpp:72-143 | What each act comes to, said of the nodes |
| `UnitActs.QueuedExactly` | src/AliasUnit.cpp:62-79 | Uninstalling queues exactly the nodes in trees whose root belongs to the package |
| `UnitActs.UninstallDeferred` | src/AliasUnit.cpp:86-92 | Inside processing these are queued after what was, all that is queued is off and unmarked, and nothing else differs |
| `UnitActs.UninstallAtOnce` | src/ActionUnit.cpp:72-95 | Outside processing exactly these are freed, once each and children first - in the action unit with all that was marked or queued |
| `UnitActs.KillDone` | src/AliasUnit.cpp:384-410 | Exactly the first temporary root of that name that is not marked yet is marked and off; without one nothing happens |
| `UnitActs.SwitchDone` | src/AliasUnit.cpp:357-381 | Exactly the switches of one node are set |
| `UnitActs.RegisterDone` | src/AliasUnit.cpp:221-276 | Exactly one new node, under the next id, last among the roots or the children, or nothing |
| `LuaWalk.Walker.GetVars` | src/LuaInterface.cpp:877-897 | However the walk ends, panics included, the interpreter's stack is as it was and nobody else's registry entries are touched; nothing beyond the depth limit is read, and a complete walk is the unfolding of the globals: every table that nothing stops is followed by exactly its contents, at every depth; the references held afterwards are those of this walk alone |
| `LuaWalk.Walker.GetSavedVars` | src/LuaInterface.cpp:905-941 | The same for the saved variables, the filter counting only here and off again however the walk ends; nothing is walked when none is saved |
| `LuaWalk.Walker.IterateTable` | src/LuaInterface.cpp:762-875 | On every heap, cyclic ones included, the walk ends, and is the unfolding of the table down to level 99, minus exactly what the reserved names, the filter, the variable unit and the stack stop; it takes just the key off the stack, raises the depth by one, and adds one reference for each key without a name |
| `LuaWalk.Walker.ReadEntry` | src/LuaInterface.cpp:765-873 | One entry is read, and all that is inside it if and only if nothing stops that; every path leaves stack and depth as they were |
| `LuaWalk.Walker.NoteEntry` | src/LuaInterface.cpp:765-831 | An entry is noted and its key named; its value is wanted unless the name is reserved, the filter drops it at the top level or the variable unit knows it |
| `LuaWalk.EachUnfolded` | src/LuaInterface.cpp:838-845 | In such an unfolding every reading of a table that nothing stops is followed by exactly the table's entries, in order, and any other reading by nothing |
| `LuaWalk.UnfoldedOnce` | src/LuaInterface.cpp:762-875 | The heap and the answers determine what is read: there is one unfolding only |
| `LuaWalk.UnfoldedLevel` | src/LuaInterface.cpp:762-875 | It reads exactly the table's entries at its level, nothing above it and nothing beyond the limit |
| `LuaWalk.Walker.ReadValue` | src/LuaInterface.cpp:838-872 | A table is walked into, and read whole, if and only if the limit and the stack allow; stack and depth are as they were |
| `LuaWalk.Walker.NameKey` | src/LuaInterface.cpp:768-792 | A key's copy is gone again; a table or function key leaves one held reference to it, any other none; the two reserved names are told apart |
| `LuaWalk.ReadNext` | src/LuaInterface.cpp:762-875 | Reading the next entry adds exactly that entry at its depth, whatever was read inside it |
| `LuaWalk.Walker.NextAfter` | src/LuaInterface.cpp:765-765 | Enumeration goes on with the next entry, or takes the key off the stack |
| `LuaWalk.Walker.EntryAndNext` | src/LuaInterface.cpp:765-874 | One turn of the loop: the entry read, its value dropped, and the next one on the stack |
| `LuaWalk.Walker.Next` | src/LuaInterface.cpp:765-765 | The next entry after a key, or none; a panic comes before the key is taken |
| `LuaWalk.Walker.Ref` | src/LuaInterface.cpp:773-774 | The top value moves into the registry under an unused number, which is held; a panic leaves stack, registry and references alone |
| `LuaWalk.Walker.ReadScalar` | src/LuaInterface.cpp:855-859 | The converted copy is gone again |
| `LuaWalk.Walker.ReleaseVariableReferences` | src/LuaInterface.cpp:78-84 | Every held reference is released once, and no other entry changes |
| `CredentialChain.FoundIsKept` | src/CredentialManager.cpp:441-616 | Whatever jobs fail and wherever the chain stops, a password it found stays under a name it consults |
| `CredentialChain.KeptExactly` | src/CredentialManager.cpp:448-455 | That holds for all stores and failures if and only if the old format's name is not the current one |
| `CredentialChain.WhenNamesCoincide` | src/CredentialManager.cpp:448-455 | When the two names coincide, per naming scheme, in terms of service and account |
| `CredentialChain.FoundFirstNextTime` | src/CredentialManager.cpp:785-902 | After successful writes the next retrieval finds the password at the first place it looks |
| `CredentialChain.OthersUntouched` | src/CredentialManager.cpp:441-616 | Entries under other names are left alone at every step |
| `CredentialChain.ReplacedExactly` | src/CredentialManager.cpp:836-885 | The current entry is replaced if and only if reading it failed, an older name held something else and the write went through |
| `CredentialChain.AnswerExactly` | src/CredentialManager.cpp:785-885 | The answer is what the first name holds, of the current, the pre-0.17 and the old one, that can be read and is not an empty older entry; there is none if and only if there is no such name |
| `CredentialChain.AnswerIgnoresWrites` | src/CredentialManager.cpp:489-499 | Whether anything can be written or deleted plays no part in the answer |
| `CredentialChain.MovedExactly` | src/CredentialManager.cpp:467-484 | A password found under an older name is written to the current one, and then exactly that older entry deleted - the pre-0.17 one only where naming has changed since; nothing else in the store changes |
| `CredentialChain.NothingMoves` | src/CredentialManager.cpp:494-511 | When no name can be read, nothing is written or deleted |
| `PlanGraph.Parse` | scripts/graph_validate.py:11-18 | The table's names in order, each with the dependencies of its last row |
| `PlanGraph.CheckOrder` | scripts/graph_validate.py:19-22 | Accepts if and only if every dependency is listed and first listed earlier |
| `PlanGraph.Search.Visit` | scripts/graph_validate.py:24-30 | On an accepted graph the search ends, never meets an active name, and closes what it has seen under dependencies |
| `PlanGraph.Search.VisitNeeds` | scripts/graph_validate.py:29-29 | The same for the dependencies of an active name |
| `PlanGraph.Search.CheckCycles` | scripts/graph_validate.py:31-31 | The cycle check never fires on a graph that passed the order check, and sees every name |
| `PlanGraph.Statuses` | scripts/graph_next.py:18-31 | The fold gives each listed node what its own ledger entries say, by their position in the ledger |
| `PlanGraph.StatusSaid` | scripts/graph_next.py:26-30 | A node is finished if and only if it was done and only released since, blocked or in progress if and only if that was the last thing said of it, and pending otherwise |
| `PlanGraph.Scan` | scripts/graph_next.py:33-36 | The first name with a status, or none |
| `PlanGraph.ScanStartable` | scripts/graph_next.py:37-39 | The first pending name whose dependencies are all done, or none |
| `PlanGraph.Choose` | scripts/graph_next.py:33-41 | The answer, and what it says about every listed name |
| `PlanGraph.NeverStalls` | scripts/graph_next.py:40-41 | On an accepted graph the answer is never a stall, for any ledger |
| `PlanGraph.CycleStalls` | scripts/graph_next.py:40-41 | On a rejected graph it can be |
| `PlanGraph.EverythingGetsDone` | scripts/graph_next.py:33-41 | With nothing blocked or in progress, following the answers finishes every pending node exactly once |

## Left out

- Signing in: JSON parsing, telnet framing, scrubbing of secrets, message texts, the browser flow itself and its one-shot hand-off flag, the version number in frames; what a keychain read returns is arbitrary.
- Signing in: a job that stays in flight across 2^32 resets of the counter it captured (`CharLoginMonitor.GenerationLaps` says what would happen).
- The editor's item kinds: one generic item stands for the six kinds, whose code is the same; snapshots are values, so XML text, compression and per-kind fields are not part of the model.
- The editor's skip-first-redo flags, the remembered previous id of an addition, the clean index, and the validity flag that lets the interface skip stale commands.
- EditorRuns.EditorFollowsVersions: says nothing once an entry has been redone while that was unsafe; `EditorLimits.MacroExact` and `EditorLimits.PasteExact` say what happens then. Deletions are not among its commands: they are treated by themselves, and `DeletionEntries.StackFollows` says which ids of other commands survive one.
- EditorLimits.PasteExact: a later addition under a node of one of the later trees is not among the commands it is about.
- Deleting: order within the interface's own lists of rows; the model deletes in any order, which makes no difference (`DeletionListing.OuterPrunes`).
- Names in the units: the lookup table by name, regular expressions, script text and reports; whether a node matches is arbitrary.
- Units.Unit.Run: a script that would attach a node under a queued or temporary node is taken not to; `DeferredDeletion.LateChild` shows why that matters.
- Moving nodes while processing is under way; only the effect of a move on the forest and the index is modelled (`DeferredDeletion.ReParentAccounted`).
- Freeing is recorded as the order in which ids leave; the memory itself is not modelled.
- LuaWalk.Walker.IterateTable: the tree of variables it builds; the answers of the variable unit, of the saved-variable filter and of the stack's growth are arbitrary, one for each question and reading.
- CredentialChain.FoundIsKept: about the two migrations that write directly; the colliding and legacy formats, file storage, timeouts and shutdown are not part of the model.
- The plan graph's text format, the comparison with plan files and lines the validator rejects.
- src/FontManager.cpp and CI/mmcp-peer.py: bookkeeping and framing that would add easy members.
- Rendering, widgets, key name tables, toolbars, themes and the remaining scripts.
