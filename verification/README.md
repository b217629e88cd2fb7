# Models of the app's algorithms and state machines

This project models, in Dafny, the parts of the chat and benchmarks app that carry the most state, branching and
structure, and proves what each of them is for: the desktop app's start, stop and progress (`apps/desktop/src`), and
the server's folder tree, glob search, config repair, task registry, prompt history, access grants and chat messages
(`apps/server/local_llm`).

| file | models |
|---|---|
| `Text.dfy` | `Option`, splitting and joining |
| `Lifecycle.dfy`, `Desktop.dfy` | `main.ts`: the steps between awaits as a state machine, and the module-level variables as an object whose methods do those steps |
| `LifecycleOutcomes.dfy` | `main.ts` again: what comes of a run, told by its events alone: groups handed and shown over, requests to stop, starts that succeed or fail |
| `Progress.dfy`, `ProgressEffects.dfy` | `progress.ts`: the reducer, and what each event does to the checklist |
| `StopGroup.dfy`, `LogTail.dfy`, `Shell.dfy`, `ProcStat.dfy` | `stack.ts`: the stop protocol, the log follower, the shell commands, `/proc/<pid>/stat` |
| `Folders.dfy`, `FolderMeanwhile.dfy`, `FolderList.dfy` | `models/folders.py` and the routes above it: subtrees of a parent graph that may hold cycles, moves and deletes, what other requests do between a check and its use, and the listing that puts looping folders back at the root |
| `Like.dfy` | `models/files.py` and `internal/db.py`: a glob turned into a LIKE pattern, compiled, cached and matched |
| `ConfigPaths.dfy`, `ConfigFragments.dfy`, `ConfigStore.dfy`, `ConfigRepair.dfy`, `ConfigTable.dfy`, `ConfigSections.dfy`, `ConfigRows.dfy` | `models/config.py`: nested writes as values, keys split, nested writes into dict objects, one section's repair, the repair of the table, the sections there are, and the repair of the table in place |
| `Tasks.dfy`, `TaskRuns.dfy` | `tasks.py`: the registry, its mirror in Redis, the shutdown loop, and what a run leaves registered, told by its events alone |
| `PromptHistory.dfy`, `AccessGrants.dfy`, `ChatMessages.dfy` | the models of the same names |

Where the source changes state step by step, a method does the same and is proved against a function or predicate;
the lemmas are about those. What the environment does (probe answers, clocks, signals' outcomes, bytes appended by
others, tasks that end or register during a wait) comes in as arbitrary parameters, so each theorem holds for all of it.

Some things one might expect do not hold of the code. They are kept as the code has them; each comes with a case in
which it fails and with the exact condition under which it holds:

- The list of a falsy item id (`None` or `''`) is never cleaned (`Tasks.FalsyItemKeepsItsTask`;
  `Tasks.CleanupUndoesCreateIffTruthy`).
- The read-only filter is not the read filter minus the write filter when neither a user nor a group is asked for, as
  for an admin who bypasses access control (`AccessGrants.NobodyAskedForIsKeptTwice`), nor for a row without an owner,
  which only the schema allows and the app never writes (`AccessGrants.UnownedRowIsMissed`); it is in all other cases
  (`AccessGrants.ReadOnlyIsDifferenceIff`).
- A subtree taken earlier and deleted later leaves a folder behind that another request put under it meanwhile
  (`FolderMeanwhile.CreatedMeanwhileIsOrphaned`; `FolderMeanwhile.LateDeleteOrphansIff`), and takes along one that was
  moved out of it (`FolderMeanwhile.MovedOutIsDeletedToo`; `FolderMeanwhile.MovedIsUnderIff`).
- `?` finds no character that lowers to several (`Like.QuestionMarkMisses`; `Like.PipelineMeansFoldedIff`).
- A start ends, unless the app's window is shown by a second launch and closed while its page is still loading; then
  it hangs until it is cancelled (`LifecycleOutcomes.ClosedWhileLoading`; `LifecycleOutcomes.StartGoesOnIff`).
- A dict with an empty dict inside does not come back from its rows (`ConfigPaths.EmptyDictIsLost`;
  `ConfigPaths.RepairUndoesFlattening`, `ConfigTable.TableRebuilds`).

`update_folder_parent_id_by_id_and_user_id` (`models/folders.py:286`) has no check of its own against moving a folder
under itself. Its route has one (`routers/folders.py:449-455`); `Folders.FolderTable.Move` and
`Folders.MoveKeepsAcyclicIff` say what that check buys when nothing happens between it and the move, and
`FolderMeanwhile.MovesCheckedTogetherMakeCycle` what it does not when two moves pass it at once.

## Model

| member | source | states |
|---|---|---|
| Folders.SelectedChildrenAreOrdered | apps/server/local_llm/models/folders.py:256-263 | a folder's children come latest updated first, and without repeats when ids are unique |
| Folders.SubtreeIds | apps/server/local_llm/models/folders.py:265-284 | the worklist ends on every parent graph, cycles and self-loops included, with exactly the ids from which parent links over this user's folders lead up to the root |
| Folders.ClosedAndReachedIsSubtree | apps/server/local_llm/models/folders.py:265-284 | a set grown from the root only and closed under children is the subtree, in whatever order it was grown; this is what makes both walks agree |
| Folders.SubtreeWalk.GetChildren | apps/server/local_llm/models/folders.py:204-214 | one recursive call adds the folders newly met below its argument, each once and before its parent, and marks them seen |
| Folders.SubtreeWalk.AddedIsSubtree | apps/server/local_llm/models/folders.py:204-214 | called on the root, what the walk adds is the root's subtree without the root, children before parents |
| Folders.ChildrenFolders | apps/server/local_llm/models/folders.py:199-224 | None exactly when the user has no such folder; otherwise the subtree minus the root, no folder twice, children before parents |
| Folders.FolderTable.Delete | apps/server/local_llm/models/folders.py:382-403 | removes exactly this user's folders with the ids the caller gave, or with the subtree's ids when none were given |
| Folders.DeletedSubtree | apps/server/local_llm/models/folders.py:382-403 | every folder outside the subtree or of another user stays as it was, and no folder of this user is left whose parent was deleted |
| Folders.RowByRow | apps/server/local_llm/models/folders.py:382-403 | a delete keeps or removes each row on its own account, so that the rest keep their order |
| FolderMeanwhile.LateDeleteOrphansIff | apps/server/local_llm/routers/folders.py:725-760 | the subtree is taken, other requests create, move and delete folders, and then it is deleted: a folder is left without its parent exactly when one of them put a folder under the subtree that was not in it, and no later one moved or deleted that folder |
| FolderMeanwhile.CreatedMeanwhileIsOrphaned | apps/server/local_llm/routers/folders.py:725-760 | one folder created under the root meanwhile is enough, whatever else the table holds |
| FolderMeanwhile.HarmlessLeavesNoOrphan | apps/server/local_llm/routers/folders.py:725-760 | nothing is orphaned when every operation puts under the subtree only what the subtree already holds, which a route could check |
| FolderMeanwhile.MovedIsUnderIff | apps/server/local_llm/routers/folders.py:449-458 | a moved folder is under another exactly when its new parent is, by a way that does not pass the folder itself |
| FolderMeanwhile.MovedOutIsDeletedToo | apps/server/local_llm/routers/folders.py:725-760 | a folder moved out of the subtree meanwhile lies outside it and is deleted all the same |
| FolderMeanwhile.MovesCheckedTogetherMakeCycle | apps/server/local_llm/routers/folders.py:449-458 | two moves, each checked before either was made, can both pass and together make a cycle |
| Folders.FolderTable.UpdateParent | apps/server/local_llm/models/folders.py:286-309 | row by row: this user's folder gets the parent, None for the root, and the time, and keeps its name; every other row is as it was, in its place; None and no change when there is no such folder |
| Folders.MoveMakesCycleIffUnderItself | apps/server/local_llm/models/folders.py:286-309 | after a move the folder lies on a cycle exactly when its new parent lay in its own subtree |
| Folders.MoveMakesNoOtherCycle | apps/server/local_llm/models/folders.py:286-309 | whatever folder lies on a cycle after a move lay on one before, or the moved folder was put under itself |
| Folders.MoveKeepsAcyclicIff | apps/server/local_llm/routers/folders.py:449-458 | a move keeps a table without cycles so exactly when it passes the check of the route |
| Folders.FolderTable.Move | apps/server/local_llm/routers/folders.py:449-458 | with nothing in between the check and the move: refuses exactly the moves of a folder under itself, and makes no cycle with those it lets through |
| FolderList.IsInParentCycle | apps/server/local_llm/routers/folders.py:103-109 | the climb ends on every parent map and says whether the folder's own parent links lead back to it |
| FolderList.PutBack | apps/server/local_llm/routers/folders.py:115-121 | the loop puts back at the root exactly the folders whose parent is missing and, of each loop, the first in the list; afterwards no folder lies on a loop and every parent named is there |
| FolderList.LoopLeft | apps/server/local_llm/routers/folders.py:115-121 | midway, a folder lies on a loop exactly when it did at first and no folder of that loop has had its turn |
| FolderList.AllBack | apps/server/local_llm/routers/folders.py:115-121 | when all had their turn, no loop and no missing parent is left |
| Like.FiveRewritesAreOneTranslation | apps/server/local_llm/models/files.py:281-301 | the five rewrites in sequence are one translation per character |
| Like.OnlyStarTranslatesToPercent | apps/server/local_llm/models/files.py:303-335 | the shortcut for `%` is taken for the glob `*` and no other |
| Like.CompilePattern | apps/server/local_llm/internal/db.py:324-358 | the loop with its escape flag gives the tokens of the pattern, or None for a pattern that ends inside an escape |
| Like.CompiledMeansLike | apps/server/local_llm/internal/db.py:324-358 | the compiled expression accepts exactly what LIKE with that escape means, for every pattern, escape and value |
| Like.TranslationMeansGlob | apps/server/local_llm/models/files.py:281-301 | the translated pattern under LIKE matches a name exactly when the glob does |
| Like.LowerTranslates | apps/server/local_llm/internal/db.py:324-358 | lower-casing the translated pattern is translating the lower-cased glob |
| Like.PipelineMeansGlob | apps/server/local_llm/models/files.py:281-335 | for every glob and name, the whole pipeline matches exactly when the lower-cased glob matches the lower-cased name with only `*` and `?` special |
| Like.LoweredGlobIsFolded | apps/server/local_llm/models/files.py:281-335 | where every character lowers to one, that is matching on the characters as they stand, letters alike when they lower alike |
| Like.PipelineMeansFoldedIff | apps/server/local_llm/models/files.py:281-335 | over a set of characters, for all globs and names, exactly when each of them lowers to one character |
| Like.QuestionMarkMisses | apps/server/local_llm/models/files.py:281-335 | `?` does not find a name of one character that lowers to several or to none |
| Like.LikeFunction.Like | apps/server/local_llm/internal/db.py:324-358 | NULL for NULL; otherwise the answer LIKE gives for the lower-cased arguments, whatever was asked before; the cache stays right and within 512 entries |
| Like.LikeFunction.Remember | apps/server/local_llm/internal/db.py:324-358 | a full cache is emptied before a new entry goes in |
| Like.SearchFiles | apps/server/local_llm/models/files.py:303-335 | the files found are, in order, the user's whose name the glob matches ignoring case |
| Like.AsciiFoldingIsProper | apps/server/local_llm/internal/db.py:324-358 | folding ASCII letters meets what the search theorems ask of lower-casing |
| Progress.OnLineLoop | apps/desktop/src/progress.ts:189-204 | the loop that rebinds its checklist while going over the old steps computes the folded markers |
| Progress.CreatedIsGood | apps/desktop/src/progress.ts:131-141 | a new checklist with unique ids keeps the invariant: in order, timed, spans apart |
| Progress.BeginKeeps | apps/desktop/src/progress.ts:159-176 | beginning a step keeps steps in order and spans apart, and moves no step back (what it does: ProgressEffects.BeginReaches) |
| Progress.FinishKeeps | apps/desktop/src/progress.ts:178-187 | finishing a step does too |
| Progress.LineKeeps | apps/desktop/src/progress.ts:189-204 | a log line, whatever markers it holds, does too |
| Progress.ReduceKeeps | apps/desktop/src/progress.ts:206-257 | every event with a time not before the last one keeps the invariant and lets no step's rank fall (what each does: ProgressEffects) |
| ProgressEffects.BeginReaches | apps/desktop/src/progress.ts:172-176 | a pending step that is begun runs from then on with the note as its detail; running steps before it are done, pending ones skipped with their reason, all others as they were |
| ProgressEffects.FinishReaches | apps/desktop/src/progress.ts:178-187 | an open step that is finished is done, keeps its start if it had one, and the steps before it give way in the same manner |
| ProgressEffects.OtherwiseNothing | apps/desktop/src/progress.ts:172-187 | beginning a step that is not pending, or finishing one that is not open, changes nothing |
| ProgressEffects.SkipSkips | apps/desktop/src/progress.ts:212-215 | a skip gives a pending step its reason and touches no other |
| ProgressEffects.TimeoutFails | apps/desktop/src/progress.ts:216-229 | the named step fails, what is pending after it is not reached, but for optional steps; with an unknown name nothing fails and every step counts as after it |
| ProgressEffects.FailFails | apps/desktop/src/progress.ts:230-243 | the failure is put down to the named step, else to the first running, else to the first pending one; that one fails and nothing else changes |
| ProgressEffects.NothingToBlame | apps/desktop/src/progress.ts:230-243 | with none of these only the error and the time are noted |
| ProgressEffects.CompleteEnds | apps/desktop/src/progress.ts:247-256 | completing ends what runs and the whole run; the offer to stop llama-server is one flag |
| ProgressEffects.PlainLine | apps/desktop/src/progress.ts:189-204 | a line without a marker goes to the log, and up to 200 characters of it become the running step's detail |
| ProgressEffects.IdleLine | apps/desktop/src/progress.ts:189-204 | a line of which nothing is left changes nothing, and one no step runs for only goes to the log |
| ProgressEffects.MarkerLine | apps/desktop/src/progress.ts:189-204 | a line with a marker, whatever it marks: the last step whose marks take effect is begun or finished, each step before it is as its own marks say and then gives way, and those after it stay |
| ProgressEffects.StrayMarkerLine | apps/desktop/src/progress.ts:189-204 | a marker no step waits for only goes to the log |
| ProgressEffects.WalkedThrough | apps/desktop/src/progress.ts:131-257 | beginning all steps of any list in turn and completing leaves every step done, each from its own beginning to the next one's, and the run finished without an error |
| Progress.RunKeeps | apps/desktop/src/progress.ts:206-257 | so does every run of events, dropped, repeated or reordered as they may be |
| Progress.AtMostOneRunning | apps/desktop/src/progress.ts:159-187 | in an ordered list at most one step runs |
| Progress.EnteredAtMostOnce | apps/desktop/src/progress.ts:154-257 | over any run a step goes from not running to running at most once, and never when it was not pending |
| Progress.TimeSpentBy | apps/desktop/src/progress.ts:159-187 | spans that lie apart in list order sum to no more than the time since the start |
| Progress.TimesAddUp | apps/desktop/src/progress.ts:206-257 | over any run from a fresh checklist, the done steps' times sum to no more than the run took |
| Progress.LogIsLastLines | apps/desktop/src/progress.ts:189-192 | the log is always the last 300 of the lines fed so far that had anything left once cleaned |
| Progress.ListsStartGood | apps/desktop/src/progress.ts:57-129 | the app's own lists of steps start out with the invariant; in each just the forced stop is optional |
| StopGroup.Machine.GroupAlive | apps/desktop/src/stack.ts:309-316 | a probe that is not permitted still counts as alive, only a missing process as gone |
| StopGroup.Machine.StopGroup | apps/desktop/src/stack.ts:344-369 | for all answers and delays, everything done, in order: one SIGINT, rounds of a probe that found the group alive and a sleep, then a probe that found it gone, or the timeout report, SIGKILL, compose down and the list of llama servers once the whole budget has passed |
| StopGroup.Machine.Force | apps/desktop/src/stack.ts:356-364 | the forced end, in order: timeout reported, SIGKILL, compose down, llama servers listed |
| StopGroup.OneSigintPerStop | apps/desktop/src/stack.ts:334-369 | exactly one SIGINT and it comes first; SIGKILL once when forced and never otherwise; compose down exactly when forced; unforced only after a probe found the group gone; forced only after the budget; at most ceil(budget/poll)+1 probes |
| StopGroup.CeilingBound | apps/desktop/src/stack.ts:354-367 | rounds begun before the budget ran out number at most ceil(budget/poll) |
| LogTail.Decoder.Write | apps/desktop/src/stack.ts:418-470 | the text given out so far is the decoding of the bytes fed so far |
| LogTail.Tail.Start | apps/desktop/src/stack.ts:430-439 | reading begins at the end only when asked and the size is known, else at the beginning |
| LogTail.Tail.TakeIn | apps/desktop/src/stack.ts:458-465 | after each read, lines handed over plus the open one are the decoded text so far, split at newlines |
| LogTail.Tail.Poll | apps/desktop/src/stack.ts:449-469 | the same over reads of any size from a file that grows meanwhile; nothing handed over is taken back; the file is read to its end |
| LogTail.Tail.Stop | apps/desktop/src/stack.ts:442-447 | all lines ever handed over are the whole decoded text split at newlines, an empty last piece dropped |
| LogTail.DialogShowsLastLines | apps/desktop/src/stack.ts:418-470 | the dialog's log depends on the text only, not on reads or polls: its last 300 cleaned non-empty lines |
| Shell.QuoteReadsBack | apps/desktop/src/stack.ts:202-204 | a quoted value is read by a shell as exactly itself, whatever characters it holds, wherever in a word it stands |
| Shell.CommandReadsBack | apps/desktop/src/stack.ts:201-231 | every list of bare words, quoted values and `&&` printed with spaces is read back as that list |
| Shell.MakeBackendReadsBack | apps/desktop/src/stack.ts:214-223 | the `make backend` command has the intended words for every path and port, the flags for ten seconds and the port in decimal digits among them |
| Shell.DecimalSpells | apps/desktop/src/stack.ts:214-223 | a port is printed as decimal digits that stand for it, with no zero in front |
| Shell.BuildUiReadsBack | apps/desktop/src/stack.ts:225-227 | the build command has the intended words and operators for every path |
| Shell.ComposeDownReadsBack | apps/desktop/src/stack.ts:229-231 | the compose command has the intended words for every path |
| Shell.ComposeRunningReadsBack | apps/desktop/src/stack.ts:258-260 | so has the one that lists containers |
| ProcStat.StatComesBack | apps/desktop/src/stack.ts:134-146 | from a line as the kernel writes it, the command name comes back whole, parentheses and spaces included, and so does field 22; a line cut short before that gives nothing |
| ProcStat.NameIsInParentheses | apps/desktop/src/stack.ts:134-146 | whatever the text, the name is what stands between its first opening and its last closing parenthesis, and the fields are counted from there |
| ProcStat.NoParenthesesNoName | apps/desktop/src/stack.ts:134-146 | and without parentheses there is none |
| Lifecycle.StepKeeps | apps/desktop/src/main.ts:259-653 | every step of startup, shutdown and the triggers keeps the invariant that fits phase, waiting places, windows and process groups together |
| Lifecycle.RunKeeps | apps/desktop/src/main.ts:259-653 | so does every interleaving |
| Lifecycle.NeverASecondSigint | apps/desktop/src/main.ts:568-605 | over every interleaving of one startup with any triggers, each process group is sent at most one SIGINT, and only groups this launch took on are sent any |
| Lifecycle.StoppedGroupsGotTheirs | apps/desktop/src/main.ts:504-605 | while a group's stop is waited for it was sent exactly one SIGINT; an owned group not being stopped was sent none; while an earlier launch's stack is stopped nothing is owned |
| Lifecycle.ExitSeesGroupsThrough | apps/desktop/src/main.ts:568-653 | once the app has exited, every group it took on counts as over (by events that show it: LifecycleOutcomes.ExitSawGroupsOver), and a UI build that was under way, which is not waited for, was sent its SIGTERM |
| Lifecycle.EveryGroupAccounted | apps/desktop/src/main.ts:363-653 | at any time every group taken on is owned, being stopped, or counts as over (by events that show it: LifecycleOutcomes.HandedIsHeldUntilShown); at most one is held; once the services are asked for, none is |
| Lifecycle.StoppingOnlyStops | apps/desktop/src/main.ts:568-653 | from 'stopping' only 'stopped' or the exit follows, from 'stopped' nothing else; neither shows an app window, sends a SIGINT or takes a group on |
| Lifecycle.NothingShownOnceStopping | apps/desktop/src/main.ts:259-305 | so over every continuation of a run in which a stop began, late page loads included |
| Lifecycle.AnswerBringsStopOn | apps/desktop/src/main.ts:568-653 | a stop never gets stuck: the end of the wait it hangs on can always come, and then fewer are left |
| Lifecycle.NothingSetsStopBack | apps/desktop/src/main.ts:568-858 | no other event, quit trigger or late start step makes them more |
| Lifecycle.StopEnds | apps/desktop/src/main.ts:568-653 | over every continuation of a stop in which its waits came to their end three times, the app has exited or shows what is left |
| Lifecycle.ShutdownStops | apps/desktop/src/main.ts:568-605 | the first call sends the owned group its one SIGINT and no other; later calls send none; the app exits or has no window left |
| Desktop.Main.OpenAppWindow | apps/desktop/src/main.ts:259-275 | a window is made, hidden, unless the start was aborted meanwhile; then there is none |
| Desktop.Main.PageIsReady | apps/desktop/src/main.ts:287-302 | the app runs and its window is shown, once, unless the start was aborted while the page loaded; then nothing is shown and no window left |
| Desktop.Main.StartShutdown | apps/desktop/src/main.ts:568-605 | the first call sends the owned group its SIGINT and nobody else one, a later one sends none, and after it the app is gone or has no window left |
| Desktop.Main.StopCameBack | apps/desktop/src/main.ts:605-625 | every group this launch took on is over, and nothing more was sent, shown or started |
| Desktop.Main.Handle | apps/desktop/src/main.ts:745-858 | whoever asks, and however often: once a stop has begun, asking sends, shows and starts nothing, and the app goes only after every group it took on is over |
| Desktop.Main.Happens | apps/desktop/src/main.ts:259-858 | whatever happens next, the variables change by just that step of the state machine, so that all of the rows above and below hold of them; no group ever has a second SIGINT, nothing new comes of a stop begun, and every group taken on counts as over at the exit |
| LifecycleOutcomes.HandedIsTaken | apps/desktop/src/main.ts:363-500 | a group is taken on by exactly the events that hand one over: an earlier launch's stack, one adopted, or one just started |
| LifecycleOutcomes.OverIsShown | apps/desktop/src/main.ts:363-653 | a group counts as over only by an event that shows it: the end of its own stop, or a probe of it that found nothing alive |
| LifecycleOutcomes.OwnedUntilShownOver | apps/desktop/src/main.ts:483-500 | an owned group is let go of only by such an event |
| LifecycleOutcomes.GoneIsForgotten | apps/desktop/src/main.ts:483-500 | and such an event does let go of it, at the end of its stop and where a start that fails finds it gone |
| LifecycleOutcomes.ExitSawGroupsOver | apps/desktop/src/main.ts:363-653 | over every run that ends in the exit, each group the run handed over was shown to be over by an event of the run |
| LifecycleOutcomes.HandedIsHeldUntilShown | apps/desktop/src/main.ts:363-653 | and before the exit it is owned or being stopped until one did |
| LifecycleOutcomes.FirstRequestStops | apps/desktop/src/main.ts:568-605 | whichever way the first request to stop comes, the owned group is interrupted and waited for, or the earlier stack is, or with neither the app exits |
| LifecycleOutcomes.OtherRequestsGoOn | apps/desktop/src/main.ts:745-858 | requests that do not ask to stop send and end nothing |
| LifecycleOutcomes.RequestWhenStoppedExits | apps/desktop/src/main.ts:568-858 | once stopped with something left on show, a request to stop ends the app |
| LifecycleOutcomes.StopEndsIn | apps/desktop/src/main.ts:605-652 | a stop that came to its end exits exactly when no service is left and no forced stop left a llama server; else it shows that it stopped |
| LifecycleOutcomes.WaitsForReady | apps/desktop/src/main.ts:314-322 | a start waits however long the backend takes, as long as what it watches is there |
| LifecycleOutcomes.RemoteStarts | apps/desktop/src/main.ts:363-490 | a remote server that answers is opened, its window shown once, and nothing is owned |
| LifecycleOutcomes.AttachStarts | apps/desktop/src/main.ts:363-490 | a backend somebody else runs is attached to, whatever the number of rounds until it is ready, and not owned |
| LifecycleOutcomes.AdoptStarts | apps/desktop/src/main.ts:363-490 | an earlier launch's backend is adopted and owned, as long as it is found alive |
| LifecycleOutcomes.OwnStarts | apps/desktop/src/main.ts:363-490 | without a backend one is started and owned, as long as its process has not exited |
| LifecycleOutcomes.BuiltStarts | apps/desktop/src/main.ts:363-490 | the same after a build of the UI |
| LifecycleOutcomes.EarlierThenStarts | apps/desktop/src/main.ts:504-555 | an earlier stack gets its one SIGINT; once over, with nothing left behind by force, the start goes on as if there had been none, else it fails |
| LifecycleOutcomes.PageOpens | apps/desktop/src/main.ts:287-302 | the page shows the window, and the progress dialog goes but not the settings, if the app is still starting; else the window goes |
| LifecycleOutcomes.SettingsOpenAndClose | apps/desktop/src/main.ts:745-858 | the settings take the dialog and give it back: closing them leaves progress on show while starting, no dialog once the app's window is there, and stops the app when no window is |
| LifecycleOutcomes.StartGoesOnIff | apps/desktop/src/main.ts:259-555 | what a start waits for can still come, stopped meanwhile or not, and then it goes on, exactly unless its window was closed while the page was loading; then nothing but a request can come |
| LifecycleOutcomes.ClosedWhileLoading | apps/desktop/src/main.ts:259-305 | that case: a second launch shows the window that is still loading and it is closed beside the dialog |
| LifecycleOutcomes.StartFailsIff | apps/desktop/src/main.ts:309-500 | an undisturbed start fails at an answer exactly when that is one it cannot go on from |
| ConfigPaths.AssignedIsThere | apps/server/local_llm/models/config.py:84-92 | after a write along a path, that path and what lies below it are the written value |
| ConfigPaths.AssignKeepsOthers | apps/server/local_llm/models/config.py:84-92 | every path that is neither a prefix nor an extension of the written one keeps its value |
| ConfigPaths.AssignMakesDicts | apps/server/local_llm/models/config.py:84-92 | every proper prefix of the written path leads to a dict |
| ConfigPaths.AssignAddsLeaf | apps/server/local_llm/models/config.py:84-92 | writing one more leaf of a value into a part of it adds just that leaf |
| ConfigPaths.LeavesDetermine | apps/server/local_llm/models/config.py:84-92 | without empty inner dicts, two nested values with the same leaves are equal |
| ConfigPaths.LeavesAreRows | apps/server/local_llm/models/config.py:315-364 | after folding the writes over rows, the leaves are exactly the rows |
| ConfigPaths.RepairUndoesFlattening | apps/server/local_llm/models/config.py:84-92 | folding the writes over one row per leaf, in any order and with repeats, rebuilds the value exactly when no dict inside it is empty |
| ConfigPaths.EmptyDictIsLost | apps/server/local_llm/models/config.py:84-92 | a dict that holds an empty one has no leaf to write a row for and comes back without it |
| ConfigPaths.AssignAllKeepsOthers | apps/server/local_llm/models/config.py:315-364 | the whole fold keeps every path no row leads to or goes on from |
| ConfigStore.AssignPath | apps/server/local_llm/models/config.py:84-92 | the write into dict objects, in place, changes what the root dict holds by exactly that assignment, with a value that is no dict or a dict with all that is under it, which is hung there and not copied; only dicts of its own tree change, only fresh ones join it, and dicts waiting elsewhere hold what they held |
| ConfigStore.Descend | apps/server/local_llm/models/config.py:86-91 | one turn of the loop goes to the dict under the key, made first when there is none, without changing what the assignment will give |
| ConfigStore.WroteIsAssign | apps/server/local_llm/models/config.py:84-92 | one entry written in a dict somewhere in the tree is an assignment along the path to it |
| ConfigStore.OnePath | apps/server/local_llm/models/config.py:84-92 | in such a tree each dict is reached by one path only, so a write is seen nowhere else |
| ConfigStore.FrameLoose | apps/server/local_llm/models/config.py:84-92 | a write below the root leaves what is under a dict that hangs elsewhere as it was |
| ConfigFragments.SplitByFields | apps/server/local_llm/models/config.py:59-81 | the loop over known fields splits at the last dot that a known field's name follows, and not at all without one; a key of digits splits at its first dot |
| ConfigFragments.SplitApiConfigFragment | apps/server/local_llm/models/config.py:59-81 | the same for the fields of API connections |
| ConfigFragments.LastMarkIsJoint | apps/server/local_llm/models/config.py:68-81 | the last such dot is where key and path were joined exactly when the path starts with a known field's name and no later part does |
| ConfigFragments.SplitUndoesJoinIff | apps/server/local_llm/models/config.py:59-81 | for every connection key, URLs included, and every dot-free path, splitting the joined key gives both back exactly when the key is all digits, or its first dotted part is not, the path starts like a known field and no later part does |
| ConfigFragments.SplitJoinsBack | apps/server/local_llm/models/config.py:59-81 | whatever the fields and the key, what a split gives joins back to the key, with a path that is not empty |
| ConfigFragments.SplitReadsIff | apps/server/local_llm/models/config.py:59-81 | a key is split into a connection key and a path exactly when they join to it and are such a pair as the split tells apart; so there is one such pair at most |
| ConfigFragments.NotSplitIff | apps/server/local_llm/models/config.py:59-81 | and it is left alone exactly when it is the join of no such pair |
| ConfigFragments.KnownFieldsAreDotFree | apps/server/local_llm/models/config.py:41-56 | the known fields meet what the theorem asks |
| ConfigRepair.KeyReadsBack | apps/server/local_llm/models/config.py:327-347 | the key of a flattened leaf, under the config key or an alias, is read back as its path |
| ConfigRepair.Repair.MergeRow | apps/server/local_llm/models/config.py:328-354 | one row, whatever its value, is assigned into the dict in place, or left alone when its connection key holds no dict; the other rows keep their values |
| ConfigRepair.Repair.MergeRows | apps/server/local_llm/models/config.py:327-354 | the loop leaves the dict and the list of superfluous rows as the fold says |
| ConfigRepair.RepairRebuilds | apps/server/local_llm/models/config.py:315-354 | a nested value written as one row per leaf comes back from the merge exactly when no dict inside it is empty, whatever the order and repeats of the rows, and every row counts as superfluous |
| ConfigRepair.SectionsArePrefixFree | apps/server/local_llm/models/config.py:24-40 | no config key or alias of a section hides another, so the theorems hold of every section |
| ConfigRows.Config.RepairConfigRows | apps/server/local_llm/models/config.py:315-367 | the loops over sections and rows with their in-place writes, and the delete at the end, leave rows that hold exactly what the repair of the table says, dicts included |
| ConfigRows.Config.RepairSection | apps/server/local_llm/models/config.py:315-364 | one section's turn changes its dict in place, hangs merged dicts there, and leaves every other row holding what it held |
| ConfigRows.TurnStandsFor | apps/server/local_llm/models/config.py:327-364 | after a turn no row that is not to be deleted shares a dict with the repaired one |
| ConfigTable.RepairKeepsOthers | apps/server/local_llm/models/config.py:315-367 | every row that is neither a section's own nor under one is there afterwards, as it was |
| ConfigTable.RepairLeavesNothingToMerge | apps/server/local_llm/models/config.py:315-367 | what is left under a section afterwards is only what its merge leaves alone: a key that cannot be split, or one of a connection whose key holds no dict |
| ConfigTable.RepairTwice | apps/server/local_llm/models/config.py:315-367 | a second repair changes nothing, in whatever order either of them finds the rows |
| ConfigTable.TableRebuilds | apps/server/local_llm/models/config.py:315-367 | a dict stored flattened stands under its key after the repair exactly when no dict inside it was empty, and none of its rows is left, whatever else the table holds and however the rows are found |
| ConfigTable.RepairHoldsRow | apps/server/local_llm/models/config.py:315-367 | beside whatever dict there was: each row that its section does not leave alone has its value where it leads, unless another row is for the same place |
| ConfigTable.RepairKeepsPath | apps/server/local_llm/models/config.py:315-367 | and every path of that dict that no row leads to or goes on from keeps its value |
| ConfigTable.RepairKeepsUnreadable | apps/server/local_llm/models/config.py:315-367 | a row that no section can read is there after the repair, unchanged |
| ConfigTable.UnreadableIff | apps/server/local_llm/models/config.py:59-81 | under a section of API connections those are exactly the rows whose key is the join of no connection key and path that the split tells apart |
| ConfigTable.RepairKeepsLeafConnection | apps/server/local_llm/models/config.py:340-352 | so is one for a connection whose own key holds something that is no dict |
| ConfigSections.SectionsAreApart | apps/server/local_llm/models/config.py:24-40 | the sections' keys differ, none lies under a section, and no key lies under two, so the theorems hold of the table there is |
| Tasks.SaveKeepsAgreement | apps/server/local_llm/tasks.py:78-83 | saving a new task keeps the Redis hash and sets listing the same tasks, no set empty |
| Tasks.CleanupKeepsAgreement | apps/server/local_llm/tasks.py:86-97 | so does cleaning one up, and a second cleanup changes nothing |
| Tasks.CleanupUndoesSave | apps/server/local_llm/tasks.py:78-97 | saving and cleaning up leaves Redis as it was |
| Tasks.StepKeepsConsistent | apps/server/local_llm/tasks.py:118-155 | creating, stopping and cleaning up keep both tables in step |
| Tasks.RegistryStaysInStep | apps/server/local_llm/tasks.py:118-155 | over any run, an item's list is exactly its tasks not yet cleaned up, each once, there only when there is one, and only such tasks are registered (which ones are: TaskRuns.RegisteredIff) |
| Tasks.CleanupTwice | apps/server/local_llm/tasks.py:118-132 | a second cleanup changes nothing |
| Tasks.CleanupUndoesCreateIffTruthy | apps/server/local_llm/tasks.py:118-155 | creating and cleaning up leaves the tables as they were exactly when the item id is not falsy |
| Tasks.FalsyItemKeepsItsTask | apps/server/local_llm/tasks.py:129-132 | the list of None still holds its task after cleanup |
| Tasks.RedisStaysInStep | apps/server/local_llm/tasks.py:78-97 | over any sequential run of creates, stops and cleanups, hash and sets list the same tasks, all of them open and under their own item |
| TaskRuns.RegisteredIff | apps/server/local_llm/tasks.py:118-299 | after any run a task is registered exactly when the run created it and has neither stopped it nor cleaned it up since |
| TaskRuns.ListedIff | apps/server/local_llm/tasks.py:118-155 | an item's list holds exactly the tasks the run created for it and has not cleaned up since; a falsy item's list all it ever had |
| TaskRuns.ListedInRedisIff | apps/server/local_llm/tasks.py:78-97 | the Redis hash lists exactly the tasks the run created and has neither stopped nor cleaned up since, and an item's set those of them created for it |
| Tasks.Registry.CreateTask | apps/server/local_llm/tasks.py:135-155 | the task is in the registry, in its item's list and in Redis, and nothing else changes |
| Tasks.Registry.CleanupTask | apps/server/local_llm/tasks.py:118-132 | changes tables and Redis by that step; the task is in neither after it |
| Tasks.Registry.StopTask | apps/server/local_llm/tasks.py:265-299 | takes the task out of the registry and says whether it was there; under Redis cleans up there for the item the hash names, always true |
| Tasks.Registry.StopItemTasks | apps/server/local_llm/tasks.py:302-326 | every task listed at the start is gone at the end, whatever is created, ends or raises meanwhile; `stopped` names, in order and each once, exactly those that were registered as their turn came and whose wait raised nothing; under Redis all members are named, out of the hash, and the item's set is gone |
| Tasks.TurnsKeep | apps/server/local_llm/tasks.py:302-326 | whatever happens during the waits, tasks that had their turn stay out of the registry and the tables stay in step |
| TaskRuns.QuietStop | apps/server/local_llm/tasks.py:302-326 | when nothing else happens meanwhile, stopped are exactly the listed tasks that were registered and whose wait did not raise |
| Tasks.Loop.CancelAll | apps/server/local_llm/tasks.py:175-178 | cancels just those of the running tasks not cancelled before |
| Tasks.Loop.StopAllTasks | apps/server/local_llm/tasks.py:158-183 | against any ending, cleanup and registering at each wait: cancelled, each once, are exactly the tasks that ran as it began or after one of its waits, the count is their number, and at the end none runs or the deadline has passed |
| PromptHistory.AcyclicIffRooted | apps/server/local_llm/models/prompt_history.py:207-231 | having no cycle is the same as every entry having a finite chain of ancestors |
| PromptHistory.DeleteShortensChain | apps/server/local_llm/models/prompt_history.py:207-231 | after a delete, a remaining entry's chain is its old one with just the deleted entry removed |
| PromptHistory.CreateKeepsChain | apps/server/local_llm/models/prompt_history.py:50-72 | a create leaves every other entry's chain as it was |
| PromptHistory.CreatedUnderParent | apps/server/local_llm/models/prompt_history.py:50-72 | a new entry's chain is its parent and then its parent's chain |
| PromptHistory.RunKeepsAcyclic | apps/server/local_llm/models/prompt_history.py:50-231 | no run of creates and deletes makes a cycle |
| PromptHistory.HistoriesStayAcyclic | apps/server/local_llm/models/prompt_history.py:50-231 | so from an empty table there never is one |
| PromptHistory.RunShortensChain | apps/server/local_llm/models/prompt_history.py:50-231 | after any run, an entry still there has its old chain with every entry deleted meanwhile left out |
| PromptHistory.EntryThereIff | apps/server/local_llm/models/prompt_history.py:50-231 | after any run a prompt has an entry exactly when it had it or the run created it, and no delete for this prompt came since |
| PromptHistory.PromptHistoryTable.DeleteHistoryEntry | apps/server/local_llm/models/prompt_history.py:207-231 | true exactly when the prompt has the entry, and then just that entry goes and its children, and no others, get its parent; no prompt ids change and no cycle comes of it |
| AccessGrants.BatchIsTheCheck | apps/server/local_llm/models/access_grants.py:561-675 | the batch query accepts an id exactly when the check does |
| AccessGrants.FilterIsOwnerOrCheck | apps/server/local_llm/models/access_grants.py:722-828 | with a user id the row filter, whose clauses are spliced together from what is asked for, keeps exactly the user's own rows and those the check accepts |
| AccessGrants.CheckMeans | apps/server/local_llm/models/access_grants.py:561-619 | the list of clauses the check builds comes to everyone, the user, or one of the groups |
| AccessGrants.FilterMeans | apps/server/local_llm/models/access_grants.py:777-816 | and so does the list the filters build, of those asked for |
| AccessGrants.ReadOnlyIsDifferenceIff | apps/server/local_llm/models/access_grants.py:830-931 | the read-only filter is read minus write, whatever is granted, exactly when a user or group is asked for and, with a user, the row has an owner |
| AccessGrants.UnownedRowIsMissed | apps/server/local_llm/models/access_grants.py:830-931 | a row without an owner, as the schema allows one, that everyone may only read is kept by the read filter and by neither other |
| AccessGrants.NobodyAskedForIsKeptTwice | apps/server/local_llm/models/access_grants.py:830-931 | with neither a user nor a group, a row everyone may read is kept by the read-only filter and by the filter for writing alike |
| AccessGrants.UsersWithAccess | apps/server/local_llm/models/access_grants.py:677-720 | lists exactly the users the check accepts, but for pending ones once everyone has access |
| AccessGrants.SharedFolderIds | apps/server/local_llm/models/folders.py:165-197 | holds exactly the folders shared with the user, with 'write' exactly where the write check accepts, in any order of the grants |
| AccessGrants.GrantsToAccessControl | apps/server/local_llm/models/access_grants.py:275-317 | the loop's four lists are the ids granted to, in order and each once; None when public read is among the grants |
| AccessGrants.ComesBack | apps/server/local_llm/models/access_grants.py:82-146 | without public read, exactly the user and group grants to read or write come back |
| AccessGrants.ToGrantsIff | apps/server/local_llm/models/access_grants.py:82-146 | a dict stands for exactly the groups and users it lists, to read or to write as they are listed; None for public read on all but files |
| AccessGrants.FromGrantsIff | apps/server/local_llm/models/access_grants.py:275-317 | without public read, the dict made of grants lists exactly those of users and groups to read or write, each in its part |
| AccessGrants.GrantsSurviveIff | apps/server/local_llm/models/access_grants.py:275-317 | a list of grants survives the old form, as a set, exactly when it has only those, or has nothing but public read on something other than a file |
| AccessGrants.NoneIsPublicRead | apps/server/local_llm/models/access_grants.py:82-146 | None and public read stand for each other, but for files |
| AccessGrants.DictComesBackDeduplicated | apps/server/local_llm/models/access_grants.py:82-146 | a dict with an entry and no public read comes back with each list once through, in order |
| AccessGrants.NormalizeAccessGrants | apps/server/local_llm/models/access_grants.py:149-187 | the loop keeps the entries as a dict keyed by principal and permission does |
| AccessGrants.NormalizedKeepsValid | apps/server/local_llm/models/access_grants.py:149-187 | each valid triple that was sent is kept once, and nothing else |
| AccessGrants.KeptIff | apps/server/local_llm/models/access_grants.py:149-187 | kept are exactly the entries sent for a named user or group to read or write, and for the public without an account to read |
| AccessGrants.LastIdIsKept | apps/server/local_llm/models/access_grants.py:178-185 | a kept grant has the id its last entry came with, or a new one when that came with none |
| AccessGrants.KeptInOrder | apps/server/local_llm/models/access_grants.py:178-187 | kept grants stand in the order in which they were first sent |
| AccessGrants.NormalizingIsIdempotent | apps/server/local_llm/models/access_grants.py:149-187 | normalizing twice is normalizing once, ids included |
| ChatMessages.UpsertTwice | apps/server/local_llm/models/chat_messages.py:297-319 | upserting the same payload again changes nothing but `updated_at` (what an upsert writes: ChatMessages.UpsertedIff) |
| ChatMessages.AppliedTwice | apps/server/local_llm/models/chat_messages.py:235-295 | applying a payload to the row it just built or changed changes only `updated_at` |
| ChatMessages.UpsertedIff | apps/server/local_llm/models/chat_messages.py:235-319 | the row an upsert leaves is the one that holds, column by column, what the payload brings under the column's key or its alias, else what was there before or a new row's default; the ids and the creation time of a row stay |
| ChatMessages.OwnRow | apps/server/local_llm/models/chat_messages.py:321-347 | each message's row is what it alone makes of the row there at the start |
| ChatMessages.OthersUntouched | apps/server/local_llm/models/chat_messages.py:321-347 | rows no message is for stay as they were |
| ChatMessages.OrderDoesNotMatter | apps/server/local_llm/models/chat_messages.py:297-347 | single upserts of the same messages give the same table in any order |
| ChatMessages.ChatMessageTable.UpsertMessages | apps/server/local_llm/models/chat_messages.py:321-347 | one lookup up front and then the writes: each message's row holds what its payload brings over what was there, all other rows are as they were, as with single upserts in turn |
| ChatMessages.StripUndoesComposite | apps/server/local_llm/models/chat_messages.py:405-411 | stripping the composite id undoes adding it |
| ChatMessages.LastRowIsMapped | apps/server/local_llm/models/chat_messages.py:405-430 | a message id that rows of the chat are for is mapped to the last of them |
| ChatMessages.OnlyRowsAreMapped | apps/server/local_llm/models/chat_messages.py:405-430 | and no other id is mapped |
| ChatMessages.FillMap | apps/server/local_llm/models/chat_messages.py:409-430 | one message per stripped id, of two rows the later |
| ChatMessages.LinkToParent | apps/server/local_llm/models/chat_messages.py:434-442 | one message joins its parent's list if the parent is there, and nothing else changes |
| ChatMessages.LinkAll | apps/server/local_llm/models/chat_messages.py:434-449 | after the second loop each child list holds its children once |
| ChatMessages.MessagesMap | apps/server/local_llm/models/chat_messages.py:388-449 | None without rows; otherwise c is among p's children, once, exactly when c's parent is p and p is in the map |

## Left out

Behaviour:

- Electron windows, IPC, files, processes and the network: their outcomes are arbitrary inputs of the steps.
- Retry after a failed start, and a crash and relaunch during a shutdown: the one-SIGINT rule is stated within one startup.
- Asking llama-server to stop (`main.ts:655-667`) is modelled only where the dialog offers it, once stopped; windows a page opens for itself are not modelled.
- `decideStart`, `uiBuildIsStale`, `ownedAction`, `isAdoptable`: one branch settles each of them.
- Titles, labels and hints of the progress dialog.
- `Config.get`, `get_many`, `get_namespace`, `upsert`, `seed_defaults`, `rename_prefix`, and the repair of the default models after that of the sections.
- Response streams, the publish and subscribe loop, and Redis operations of several workers at once.
- Snapshots and diffs of prompt histories; deleting all of a prompt's entries at once; usage statistics over chat messages, and the JSON keys a mapped message has; saving, revoking and replacing grants; the `strip_*` and `has_public_*` helpers.
- HTTP routes but for what they check and do around a folder's move, delete and listing; OAuth, sockets, the batch operations of `memories.py`, folder search by name, and updates of other folder fields.

Abstractions:

- Tables are sequences or maps of rows and every commit is atomic; what the ORM notices of a value changed in place is not modelled. Rows with equal sort keys come in some fixed order.
- Lifecycle.StepKeeps: a step is the code between two awaits, and group ids are never used again.
- Progress.OnLineLoop: `cleanLine` is any function of the line.
- LogTail.Decoder.Write: the UTF-8 decoder is any incremental decoding as its documentation describes one.
- Shell.CommandReadsBack: double quotes, expansions, patterns, comments and operators other than newline and `&&` are refused by the reader rather than interpreted; the printed commands hold none. `path.join` is not part of this model, so the joined path is the argument.
- Like.PipelineMeansGlob: lower-casing goes character by character, so a final sigma, which depends on what surrounds it, is not covered; paging and sorting of `search_files` are left out.
- Like.SearchFiles: a row without a file name, which the app never writes and on which the search raises, is not modelled.
- Like.CompilePattern: the regular expression is its three kinds of pieces; `re` itself is not part of this model.
- ConfigFragments.SplitUndoesJoinIff: `isdigit` is modelled for ASCII digits.
- ConfigRepair.Repair.MergeRows: a row whose value is a dict comes once in the list; when the query of an alias, whose `_` also matches a dot, brings it a second time, the dict as changed in between is not modelled. Other rows may come in any order and repeatedly.
- ConfigRows.Config.RepairConfigRows: a row whose value is a dict is found once; the rows are those the session holds; whether the ORM notices that a dict it loaded was changed in place, and so stores it, is not modelled.
- Folders.FolderTable.Move: check and move are one step, while the route awaits between them (see `FolderMeanwhile.MovesCheckedTogetherMakeCycle`); the route's checks for an equal name, for the parent's existence and for access to it come before and are left out.
- FolderList.PutBack: the accessible files that the listing also filters are left out.
- ChatMessages.AppliedTwice: `get_usage` is any function of the payload.
- Tasks.RedisStaysInStep: one operation after the other; a save racing a cleanup is not covered.
