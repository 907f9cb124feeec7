# Verified models of OrcaSlicerNeo

OrcaSlicerNeo runs the OrcaSlicer core in a WebAssembly worker behind a desktop and a web shell.
This project models the parts of the repository that carry the hardest guarantees and proves
those guarantees for all inputs and all runs.

**Undo and redo** (`packages/slicer-wasm/src/history/TimestampedHistory.cpp`). The history keeps
archives of the project at logical timestamps, edges between them, a byte budget that evicts
archives, editing sessions that merge paint strokes, a navigation floor and a saved marker.

- `HistoryThreads` - edges as threads between timestamps; the undo list, the redo list and the
  line through the cursor; the edge walk of a jump.
- `History` - the timeline value, its invariant, capture, eviction under an arbitrary accounting.
- `HistorySteps`, `HistoryNavigation`, `HistoryCompaction` - what each operation does to the two
  lists, and which calls succeed.
- `HistoryBudget` - what the budget takes and when it stops, told by the two lists alone.
- `HistoryDeltas` - exactly what the delta of an edit, a step, a jump and a merged stroke names.
- `HistoryEffects` - when each call is accepted and what it leaves behind, record by record.
- `HistoryPaintRuns` - which paint strokes merge, and when a run of strokes becomes one step.
- `HistoryRuns` - any sequence of calls: the invariant, and that a settled archive never changes.
- `HistoryIdentities` - session ids that are never reused and timestamps that never come back.
- `HistoryWithinBudget` - runs in which nothing is evicted: the list of edges is one chain, and
  paint runs always become one step.
- `HistoryLimits` - concrete runs on which the history does less than one would expect.
- `EditorRuns`, `StackRefinement` - any run of an editor that owns a history: its scene deltas name
  everything that changed, a project is unmodified exactly where it was saved, and undo and redo are
  a window onto one unbounded list of project states.
- `EditorCalls` - an editor's run is a run of public calls, and its document is what they returned.
- `TimestampedHistoryClass` - the class itself, with its loops, proved against the functions above.

**Protocol observer** (`apps/desktop/e2e/nodefs-runtime.e2e.ts`). `ProtocolObserver` is the class
that pairs replies with requests per message port, proved against a specification that only
mentions the trace of messages; `ProtocolTraces` proves what the logs can be relied on for.

**Loader rewrite** (`apps/web/vite.config.ts`). `LoaderRewrite` models the two global replacements
on arbitrary text and the build step over all loader variants.

**Packing oracle** (`apps/desktop/e2e/arrangement-journey.ts`). `Packing` bounds what the oracle can
accept by the exact capacity of the beds.

**Noise generator** (`apps/desktop/e2e/bambu-storage.e2e.ts`). `Xorshift` models the 32-bit generator
and the buffer it fills; shifts follow section 13.9 of ECMA-262.

**Prime tower** (`apps/desktop/e2e/prime-tower-project.e2e.ts`). `PrimeTower` models the G-code reader
on text: markers, lines, numbers, modal coordinates, bounds and the footprint check. `TowerPrograms`
compares the reader with the meaning of the commands an exporter writes.

**Quit barrier** (`apps/desktop/e2e/bambu-host-smoke.ts`) and **frame oracle**
(`apps/desktop/e2e/painting.e2e.ts`): `QuitBarrier` and `FrameContinuity`.

Conventions: `Option` results stand for calls that may be refused; `hide` keeps definitions a proof
does not need out of the solver's sight; lemmas that return values name the amounts their
statements mention. Expectations of the end-to-end code that would throw are conditions of the
result. Coordinates are exact reals.

Some results differ from what one might expect of the code:

- Section 6.2 of `spec/Surface Painting Architecture.md` wants every retained continuous run of strokes
  to become one step when a session is compacted or closed. The code merges strokes that are
  neighbours in its list of edges. An edge that the budget has put out of reach can stand between two
  consecutive strokes, which then stay apart (`HistoryLimits.RunStaysInTwoPieces`). The exact condition
  is that consecutive strokes are neighbours in the list (`HistoryPaintRuns.CompactCollapses`,
  `HistoryPaintRuns.CloseCollapses`); as long as nothing is evicted it always holds
  (`HistoryWithinBudget.RunsCollapseWithinBudget`).
- After the budget has evicted an archive in the middle of the redo branch, later edges stay in the
  list of entries although no call, short of starting over, can ever reach them again
  (`HistoryLimits.EvictionLeavesOrphans`); a jump to a listed entry is accepted exactly under the
  condition of `HistoryNavigation.RestoreSucceedsIff`.
- Starting over gives timestamps out again, so what a timestamp stands for is fixed only between two
  clears (`HistoryRuns.SettledModelsNeverChange`, `HistoryLimits.AnythingAfterClear`). Session ids are
  not given out again.
- If the host's close call fails, nothing ever opens the quit barrier again
  (`QuitBarrier.FailedCloseNeverExits`): the application can exit exactly if the close call completes.
  A close call that never settles, as when the child process does not exit after its shutdown message
  (`apps/desktop/src/main/bambuUtility.ts:112-121`), has the same effect
  (`QuitBarrier.UnsettledCloseHoldsBack`).

## Model

| member | source | states |
|---|---|---|
| HistoryThreads.CollectIffOnLine | packages/slicer-wasm/src/history/TimestampedHistory.cpp:379-400 | The edge walk of a jump succeeds exactly for the timestamps reachable from the cursor by undoing or by redoing, never through a gap |
| HistoryThreads.NavigationKeepsLine | packages/slicer-wasm/src/history/TimestampedHistory.cpp:352-366 | Going to any timestamp of the line leaves the whole line, past and future, as it is |
| HistoryThreads.PastAfterLoss | packages/slicer-wasm/src/history/TimestampedHistory.cpp:420-426 | When a timestamp and its edges are lost, the undo list keeps exactly the part newer than it |
| HistoryThreads.FutureAfterLoss | packages/slicer-wasm/src/history/TimestampedHistory.cpp:420-426 | When a timestamp and its edges are lost, the redo list keeps exactly the part before it |
| History.DeltaBetween | packages/slicer-wasm/src/history/TimestampedHistory.cpp:84-125 | The delta names exactly the objects whose record differs, with the volumes and instances they have on either side and no others, and the plates of both scenes |
| History.Changed | packages/slicer-wasm/src/history/TimestampedHistory.cpp:93-106 | An object is listed if and only if its record differs or exists on one side only |
| History.CoversCompose | packages/slicer-wasm/src/history/TimestampedHistory.cpp:127-133 | The union of the deltas of two consecutive steps covers the combined step |
| HistoryDeltas.EditNames | packages/slicer-wasm/src/history/TimestampedHistory.cpp:84-125 | The delta of an edit names exactly the objects that differ, the parts these have before or after, and the plates of both scenes |
| HistoryDeltas.JumpDeltaIsExact | packages/slicer-wasm/src/history/TimestampedHistory.cpp:379-400 | The delta of an accepted jump names an object, volume, instance or plate if and only if an edge on the line between cursor and target names it; the restored objects are listed in order |
| HistoryDeltas.StepDelta | packages/slicer-wasm/src/history/TimestampedHistory.cpp:885-906 | One Undo or Redo returns exactly the delta its edge recorded |
| HistoryDeltas.MergingKeepsDeltas | packages/slicer-wasm/src/history/TimestampedHistory.cpp:754-764 | Merging strokes leaves the delta between any two remaining timestamps exactly as it was |
| History.EnforceTrims | packages/slicer-wasm/src/history/TimestampedHistory.cpp:449-523 | For every accounting, enforcing the budget only removes the oldest undo steps and, once at most one is left, the furthest redo steps; the neighbours of the cursor stay, retained archives are unchanged, and the saved marker is given up exactly when its archive is lost |
| HistoryBudget.OnlyNearIsLeft | packages/slicer-wasm/src/history/TimestampedHistory.cpp:508-523 | Enforcement stops only within the budget or when the remaining archives are the cursor's, the one a step back, the one a step forward and, if asked, those ahead |
| HistoryBudget.NothingIsTakenInVain | packages/slicer-wasm/src/history/TimestampedHistory.cpp:508-518 | Within the budget, or with nothing else left, enforcement changes nothing |
| HistoryBudget.OldestIsTaken | packages/slicer-wasm/src/history/TimestampedHistory.cpp:449-523 | Otherwise it takes the oldest other archive with the edges at it, gives up a saved marker there, and goes on |
| HistoryBudget.EvictableIsNotSpared | packages/slicer-wasm/src/history/TimestampedHistory.cpp:449-456 | An archive may be taken if and only if it is none of these |
| HistoryBudget.JumpMeetsBudget | packages/slicer-wasm/src/history/TimestampedHistory.cpp:923-924 | After an accepted jump memory suffices or only the cursor's archive and its two neighbours are left |
| HistoryBudget.NewBudgetIsMet | packages/slicer-wasm/src/history/TimestampedHistory.cpp:1021-1025 | A new budget is set and met in the same sense |
| HistorySteps.AbortUndoesBegin | packages/slicer-wasm/src/history/TimestampedHistory.cpp:788-881 | Opening an operation and giving it up restores the exact timeline and returns the predecessor with the live session roots |
| HistorySteps.AbortSucceeds | packages/slicer-wasm/src/history/TimestampedHistory.cpp:865-881 | An abort succeeds exactly if an operation is open, and keeps the invariant |
| HistoryEffects.TruncateCutsBranch | packages/slicer-wasm/src/history/TimestampedHistory.cpp:428-447 | Cutting keeps exactly the edges that end before the first redo step and the archives at the cursor and at their ends; a saved marker is given up exactly with its archive; without a redo step nothing changes |
| HistoryEffects.BeginSucceedsIff | packages/slicer-wasm/src/history/TimestampedHistory.cpp:288-329 | An operation opens at an archived cursor if and only if objects and meshes agree in order by id, version, parts, transforms and key, whatever their bytes; otherwise if and only if ids are non-zero and distinct and mesh keys distinct |
| HistoryEffects.BeginOpens | packages/slicer-wasm/src/history/TimestampedHistory.cpp:806-827 | An accepted opening changes the cursor's archive and the operation only: an archived model stays, the live context is taken, and scene, rollback state and session are remembered |
| HistoryEffects.NestedCallsJoin | packages/slicer-wasm/src/history/TimestampedHistory.cpp:791-794 | A nested opening always joins, a nested commit undoes the joining exactly, and giving up gives up the whole |
| HistoryEffects.CommitExactly | packages/slicer-wasm/src/history/TimestampedHistory.cpp:830-863 | An outer commit cuts the redo branch, adds one edge with the operation's data and the difference of the two scenes, moves to its end, marks its session, and enforces the budget |
| HistoryEffects.CommitFreesBranch | packages/slicer-wasm/src/history/TimestampedHistory.cpp:428-447 | After an outer commit nothing of the former redo list is archived, and a saved marker on it is given up and reported lost |
| HistoryEffects.EditIsRecorded | packages/slicer-wasm/src/history/TimestampedHistory.cpp:788-863 | From opening to Undo: the step carries title, kind and session and exactly the difference of the scenes, plates included, and Undo returns that difference |
| HistoryEffects.SessionOpensIff | packages/slicer-wasm/src/history/TimestampedHistory.cpp:621-648 | A session opens if and only if no session and no operation is open, ids are left and no floor stands elsewhere; the last id uses the ids up |
| HistoryEffects.FloorBars | packages/slicer-wasm/src/history/TimestampedHistory.cpp:991-998 | A floor is accepted if and only if nothing is open and it is the cursor or archived behind it; then exactly the earlier timestamps are barred |
| HistoryEffects.RewriteBindsAll | packages/slicer-wasm/src/history/TimestampedHistory.cpp:960-982 | Every archive and the rollback state get the rewritten context, the cursor's the caller's, or nothing changes; exact condition for both |
| HistoryEffects.EntryJumpLands | packages/slicer-wasm/src/history/TimestampedHistory.cpp:927-943 | A jump by id is the jump to the start or end of the first entry with that id |
| HistorySteps.CommitExtendsUndo | packages/slicer-wasm/src/history/TimestampedHistory.cpp:838-849 | The outer commit empties the redo list, makes the predecessor the newest undo step, which the budget cannot take, and leaves the new top unarchived |
| HistoryNavigation.RestoreSucceedsIff | packages/slicer-wasm/src/history/TimestampedHistory.cpp:908-925 | A jump succeeds exactly if no operation is open, the target is on the line and not below the floor, and the cursor's state is archived or can be |
| HistoryNavigation.RestoreMovesAlongLine | packages/slicer-wasm/src/history/TimestampedHistory.cpp:908-925 | A jump returns what the target stands for, archives the state it leaves, and changes the line only where the budget trims its ends |
| HistoryNavigation.ButtonsTellTheTruth | packages/slicer-wasm/src/history/TimestampedHistory.cpp:945-956 | Outside an operation Redo works exactly when it is offered, and Undo exactly when it is offered and the live state can be archived |
| HistoryNavigation.ButtonsShowSteps | packages/slicer-wasm/src/history/TimestampedHistory.cpp:945-956 | At any time Redo is offered if and only if there is a redo step, and Undo if and only if there is an undo step that the floor does not bar |
| HistoryNavigation.UndoThenRedo | packages/slicer-wasm/src/history/TimestampedHistory.cpp:885-906 | Undo steps one place back and Redo brings back the state that was left, with the same predecessor again behind it, whatever the budget takes |
| HistoryNavigation.EditUndoRedo | spec/Undo and Redo.md:421-434 | An edit can always be undone and redone however small the budget is; Undo returns the predecessor with the editing context sampled when the edit began |
| HistoryLimits.EvictionLeavesOrphans | packages/slicer-wasm/src/history/TimestampedHistory.cpp:420-426 | A run from an empty history, four edits and a jump back over the budget, after which the last edit stays listed and archived but every later jump to it is refused |
| HistoryNavigation.CommitIsRecorded | packages/slicer-wasm/src/history/TimestampedHistory.cpp:838-858 | The newest undo step carries the operation's title, kind and session and a delta that covers what changed since it began; a commit of the open session marks it effective |
| HistoryNavigation.SessionStartsAtCursor | packages/slicer-wasm/src/history/TimestampedHistory.cpp:621-648 | Opening a session forbids Undo at once and keeps both lists |
| HistoryNavigation.SessionKeepsItsEntry | packages/slicer-wasm/src/history/TimestampedHistory.cpp:374-377 | While a session is open no navigation leads to before its entry |
| HistoryCompaction.MergeRunsHides | packages/slicer-wasm/src/history/TimestampedHistory.cpp:735-766 | Merging removes exactly the timestamps merged away from every undo and redo list |
| HistoryCompaction.CompactHidesInside | packages/slicer-wasm/src/history/TimestampedHistory.cpp:655-667 | Compaction takes only the timestamps merged away, and what the budget takes from the old end, off the undo list; it keeps the redo list whole and every retained archive as it was |
| HistoryCompaction.CloseHidesInside | packages/slicer-wasm/src/history/TimestampedHistory.cpp:669-692 | Closing a session does the same to the undo list and lifts the floor; the redo list is emptied if the session committed something and kept whole, whatever the budget, if not |
| HistoryEffects.MergingFrees | packages/slicer-wasm/src/history/TimestampedHistory.cpp:768-777 | Merging frees exactly the archives between neighbouring strokes, but for the floor; a saved marker is given up exactly with its archive; nothing else but the list of edges changes |
| HistoryEffects.CompactExactly | packages/slicer-wasm/src/history/TimestampedHistory.cpp:655-667 | The open session can be compacted, and only it; without neighbouring strokes nothing changes, otherwise they merge, the archives between them are freed and the budget is enforced behind the cursor |
| HistoryEffects.CloseExactly | packages/slicer-wasm/src/history/TimestampedHistory.cpp:669-692 | The open session can be closed, and only it: strokes merge and are freed, an effective session's redo branch is cut and freed, floor and session end, and the budget spares the redo branch of a session without effect |
| HistoryPaintRuns.InsideIsBetweenNeighbours | packages/slicer-wasm/src/history/TimestampedHistory.cpp:742-764 | The timestamps merged away are exactly those between two strokes of the session that are neighbours among the applied edges |
| HistoryPaintRuns.InsideExactly | packages/slicer-wasm/src/history/TimestampedHistory.cpp:704-764 | On a history: exactly the timestamps between two edges that are neighbours in the list, both strokes of the session and both ended by the cursor |
| HistoryPaintRuns.OthersSurvive | packages/slicer-wasm/src/history/TimestampedHistory.cpp:742-745 | Edges that are no strokes of the session stay as they are, in the same order |
| HistoryPaintRuns.LaterEdgesSurvive | packages/slicer-wasm/src/history/TimestampedHistory.cpp:742-745 | Edges beyond the cursor stay as they are, at the end of the list |
| HistoryPaintRuns.OnlyStrokesGrow | packages/slicer-wasm/src/history/TimestampedHistory.cpp:756-764 | Every edge of the merged list is an old one or a longer stroke with the new title and the start and id of an old stroke |
| HistoryPaintRuns.JointsAfterMerging | packages/slicer-wasm/src/history/TimestampedHistory.cpp:735-767 | A timestamp still on the undo list after merging lies between two strokes if and only if it did before, but for the old end of the list |
| HistoryPaintRuns.CompactCollapses | spec/Surface Painting Architecture.md:865-880 | Compaction leaves no two consecutive strokes of the session on the undo list if consecutive strokes are neighbours in the list of edges; if the budget takes nothing, exactly then; in general, exactly if no timestamp between two strokes is left |
| HistoryPaintRuns.CloseCollapses | spec/Surface Painting Architecture.md:865-880 | The same for closing a session |
| HistoryWithinBudget.RunsCollapseWithinBudget | spec/Surface Painting Architecture.md:865-880 | In every run in which nothing was evicted, compacting or closing the session leaves no two consecutive strokes on the undo list |
| HistoryLimits.RunStaysInTwoPieces | packages/slicer-wasm/src/history/TimestampedHistory.cpp:745-762 | A run from an empty history, six strokes of one session with room for five archives, after which closing the session leaves two consecutive strokes on the undo list |
| HistoryRuns.StepKeeps | packages/slicer-wasm/src/history/TimestampedHistory.hpp:112-206 | Every public call that changes the history, accepted or refused, keeps the invariant, and every such call but clear keeps the models of settled timestamps |
| HistoryRuns.LeavingSettles | packages/slicer-wasm/src/history/TimestampedHistory.cpp:916-922 | A timestamp is settled, with the state it was left in, by the jump that leaves it |
| HistoryRuns.SettledModelsNeverChange | spec/Undo and Redo.md:280-286 | After any sequence of calls without a clear, a restore of a settled timestamp returns exactly its model or is refused |
| HistoryRuns.ClearUnsettles | packages/slicer-wasm/src/history/TimestampedHistory.cpp:614-619 | After a clear no timestamp is settled |
| HistoryLimits.AnythingAfterClear | packages/slicer-wasm/src/history/TimestampedHistory.cpp:614-619 | After a clear every timestamp can come to stand for any state, whatever it stood for before |
| HistoryRuns.RewriteStep | packages/slicer-wasm/src/history/TimestampedHistory.hpp:177-183 | Rewriting contexts changes no topology, no marker and no model |
| HistoryRuns.RewriteCommutesWithAbort | packages/slicer-wasm/src/history/TimestampedHistory.cpp:974-979 | Giving up an operation after a rewrite ends where a rewrite after giving it up ends, so an abort brings back no old context |
| HistoryIdentities.NoIdTwice | packages/slicer-wasm/src/history/TimestampedHistory.cpp:183-185 | Over any run, clears included, a later session has a greater id than an earlier one |
| HistoryIdentities.ClosedForGood | packages/slicer-wasm/src/history/TimestampedHistory.cpp:183-185 | Over any run, clears included, the id of a closed session compacts and closes nothing ever again |
| HistoryIdentities.EntryIdsAreUnique | packages/slicer-wasm/src/history/TimestampedHistory.cpp:845-847 | In every run from an empty history no two listed entries have the same id, merged and evicted ones included |
| HistoryIdentities.OffLineForGood | packages/slicer-wasm/src/history/TimestampedHistory.cpp:908-925 | A timestamp that has left the line stays off it and every jump to it is refused, in every run without a clear |
| EditorRuns.CollectCovers | packages/slicer-wasm/src/history/TimestampedHistory.cpp:379-400 | The merged delta of a jump covers the difference between its two ends over any number of edges, in either direction |
| EditorRuns.JumpDeltaCovers | spec/Undo and Redo.md:296-300 | The patch returned by a jump names every object that differs from the document, with its parts, and lists the restored objects in order |
| EditorRuns.CancelKeepsEditor | spec/Undo and Redo.md:264-270 | A cancelled operation leaves the editor, document and history, exactly as it was |
| EditorRuns.MergedEdgesCover | packages/slicer-wasm/src/history/TimestampedHistory.cpp:754-764 | Merged strokes carry deltas that cover everything the strokes changed |
| EditorRuns.ActKeepsEditor | packages/slicer-wasm/src/bridge_history.cpp:2050-2098 | Every action of the editor keeps document, archives, deltas and saved marker consistent |
| EditorRuns.UnmodifiedIsSaved | spec/Undo and Redo.md:478-493 | In every run the project is reported as unmodified exactly while the cursor is where the last save was made, and then holds the very model saved, across eviction, merging and branching |
| EditorRuns.NewProjectIsModified | packages/slicer-wasm/src/history/TimestampedHistory.cpp:1010-1014 | In every run from a new project it is reported as modified until it is saved |
| EditorCalls.ActMakesCalls | packages/slicer-wasm/src/bridge_history.cpp:2050-2098 | Each action of the editor takes the history exactly where its one or two public calls take it |
| EditorCalls.EditorRunsAreRuns | packages/slicer-wasm/src/bridge_history.cpp:2050-2098 | Every run of an editor is a run of public calls |
| EditorCalls.JumpTakesOver | packages/slicer-wasm/src/history/TimestampedHistory.cpp:918-925 | After an accepted jump the document is what the target stood for, context included |
| EditorCalls.EditTakesOver | packages/slicer-wasm/src/history/TimestampedHistory.cpp:788-863 | An edit makes the new state, context and plates the document if its opening is accepted, and changes nothing if not |
| EditorCalls.UndoRedoRestoresDocument | packages/slicer-wasm/src/history/TimestampedHistory.cpp:885-906 | Undo makes the predecessor's archive the document, and Redo brings back the document that was left, with its context |
| EditorCalls.SaveIsTaken | packages/slicer-wasm/src/history/TimestampedHistory.cpp:1004-1014 | A save leaves the document alone, makes the project unmodified and records what was saved |
| StackRefinement.JumpIsShown | packages/slicer-wasm/src/history/TimestampedHistory.cpp:885-925 | A jump moves the cursor of the reference list by the distance the editor moved |
| StackRefinement.EditIsShown | packages/slicer-wasm/src/history/TimestampedHistory.cpp:830-863 | A committed edit cuts the reference list after the cursor and extends it; a step back is available |
| StackRefinement.MergeIsShown | packages/slicer-wasm/src/history/TimestampedHistory.cpp:655-692 | Merging strokes and closing a session take the states between neighbouring strokes out of the reference list, and, if the session committed something, those after the cursor |
| StackRefinement.RunFollowsStacks | spec/Undo and Redo.md:128-137 | In every run from a new project, merging and closing sessions and starting over included, the document is the state under the cursor of one unbounded list of states, and the undo and redo lists are a stretch of that list around it |
| TimestampedHistoryClass.TimestampedHistory.constructor | packages/slicer-wasm/src/history/TimestampedHistory.cpp:568-571 | A new history is empty and meets the invariant |
| TimestampedHistoryClass.TimestampedHistory.EnforceBudget | packages/slicer-wasm/src/history/TimestampedHistory.cpp:508-523 | The eviction loop computes the modelled enforcement, whose meaning is given by the laws of `HistoryBudget` |
| TimestampedHistoryClass.TimestampedHistory.FindCandidate | packages/slicer-wasm/src/history/TimestampedHistory.cpp:511-516 | The search in timestamp order finds the oldest archive that `HistoryBudget.EvictableIsNotSpared` allows to take |
| TimestampedHistoryClass.TimestampedHistory.CollectSceneDelta | packages/slicer-wasm/src/history/TimestampedHistory.cpp:379-400 | The walking loop gathers the union of the deltas between cursor and target, or fails where no edge leads on |
| TimestampedHistoryClass.TimestampedHistory.MergePaintRuns | packages/slicer-wasm/src/history/TimestampedHistory.cpp:735-766 | The nested loops merge every run and report the timestamps inside |
| TimestampedHistoryClass.TimestampedHistory.BeginOperation | packages/slicer-wasm/src/history/TimestampedHistory.cpp:788-828 | Opens or joins an operation as modelled, or leaves the history unchanged |
| TimestampedHistoryClass.TimestampedHistory.CommitOperation | packages/slicer-wasm/src/history/TimestampedHistory.cpp:830-863 | Succeeds exactly if an operation is open and publishes the modelled timeline |
| TimestampedHistoryClass.TimestampedHistory.AbortOperation | packages/slicer-wasm/src/history/TimestampedHistory.cpp:865-881 | Succeeds exactly if an operation is open and returns its predecessor |
| TimestampedHistoryClass.TimestampedHistory.RestoreTo | packages/slicer-wasm/src/history/TimestampedHistory.cpp:908-925 | Publishes the modelled jump and result, or leaves the history unchanged |
| TimestampedHistoryClass.TimestampedHistory.UndoStep | packages/slicer-wasm/src/history/TimestampedHistory.cpp:885-899 | Publishes the modelled Undo, or leaves the history unchanged |
| TimestampedHistoryClass.TimestampedHistory.RedoStep | packages/slicer-wasm/src/history/TimestampedHistory.cpp:901-906 | Publishes the modelled Redo, or leaves the history unchanged |
| TimestampedHistoryClass.TimestampedHistory.RestoreBefore | packages/slicer-wasm/src/history/TimestampedHistory.cpp:927-934 | Jumps to the state before the first entry with the id, or leaves the history unchanged |
| TimestampedHistoryClass.TimestampedHistory.RestoreAfter | packages/slicer-wasm/src/history/TimestampedHistory.cpp:936-943 | Jumps to the state after the first entry with the id, or leaves the history unchanged |
| TimestampedHistoryClass.TimestampedHistory.Rebind | packages/slicer-wasm/src/history/TimestampedHistory.cpp:960-982 | Publishes the rewritten contexts of all archives and of the rollback state, or nothing if a rewrite fails |
| TimestampedHistoryClass.TimestampedHistory.OpenEditingSession | packages/slicer-wasm/src/history/TimestampedHistory.cpp:621-648 | Opens a session with the floor at the cursor, or refuses |
| TimestampedHistoryClass.TimestampedHistory.CompactSession | packages/slicer-wasm/src/history/TimestampedHistory.cpp:655-667 | Succeeds exactly for the open session without an open operation, and publishes the modelled compaction |
| TimestampedHistoryClass.TimestampedHistory.CloseSession | packages/slicer-wasm/src/history/TimestampedHistory.cpp:669-692 | Succeeds exactly for the open session without an open operation, and publishes the modelled closure |
| TimestampedHistoryClass.TimestampedHistory.SetByteBudget | packages/slicer-wasm/src/history/TimestampedHistory.cpp:1021-1025 | Sets the budget and enforces it |
| TimestampedHistoryClass.TimestampedHistory.MarkCurrentAsSaved | packages/slicer-wasm/src/history/TimestampedHistory.cpp:1004-1014 | Moves the saved marker to the cursor; the project is then unmodified |
| TimestampedHistoryClass.TimestampedHistory.Clear | packages/slicer-wasm/src/history/TimestampedHistory.cpp:614-619 | Starts over with the same budget and without reusing session ids |
| ProtocolObserver.Observer.PostMessage | apps/desktop/e2e/nodefs-runtime.e2e.ts:41-72 | Posting keeps the observer's state equal to what the trace says, attaches one listener per requesting port, and logs nothing |
| ProtocolObserver.Observer.Deliver | apps/desktop/e2e/nodefs-runtime.e2e.ts:49-67 | A delivered message keeps the three logs and the runtime state equal to the projections of the trace, and the pending maps equal to the open requests |
| ProtocolObserver.Observer.Record | apps/desktop/e2e/nodefs-runtime.e2e.ts:56-66 | An accepted result is logged under its operation only; missing bytes log nothing |
| ProtocolTraces.OpenOpIsLatest | apps/desktop/e2e/nodefs-runtime.e2e.ts:53-54 | A response takes the operation of the latest request with its id on its port that no other request or response followed |
| ProtocolTraces.OtherPortsDoNotInterfere | apps/desktop/e2e/nodefs-runtime.e2e.ts:40-48 | What is open on a port depends on the events of that port alone |
| ProtocolTraces.LogsGrow | apps/desktop/e2e/nodefs-runtime.e2e.ts:56-66 | The three logs are append-only over every extension of the trace |
| ProtocolTraces.SliceLogIsMatches | apps/desktop/e2e/nodefs-runtime.e2e.ts:53-59 | The slice log lists, in order, the receipts of exactly the accepted replies to open slice requests that carry one |
| ProtocolTraces.ExportLogIsMatches | apps/desktop/e2e/nodefs-runtime.e2e.ts:60-63 | The export log lists, in order, file names and sizes of exactly the accepted replies to open export requests with bytes |
| ProtocolTraces.ProjectLogIsMatches | apps/desktop/e2e/nodefs-runtime.e2e.ts:60-66 | The project log lists, in order, paths and sizes of exactly the accepted replies to open project requests with bytes |
| ProtocolTraces.RuntimeStateIsLatest | apps/desktop/e2e/nodefs-runtime.e2e.ts:49-51 | The recorded runtime state is the latest one told to a port that had posted a request |
| ProtocolTraces.SliceToPreview | apps/desktop/e2e/nodefs-runtime.e2e.ts:107-120 | The check passes exactly if the log is one longer, and yields its last entry |
| ProtocolTraces.PreviewIsTheOnlyNewSlice | apps/desktop/e2e/nodefs-runtime.e2e.ts:107-120 | The check passes with a receipt if and only if exactly one accepted slice reply with a receipt was matched between the readings, and it carried that receipt |
| ProtocolTraces.OneAddedIsOneMatch | apps/desktop/e2e/nodefs-runtime.e2e.ts:53-59 | The slice log grows by exactly one receipt if and only if exactly one later event is a matched slice reply, with that receipt |
| ProtocolTraces.RepeatedReplyAddsNothing | apps/desktop/e2e/nodefs-runtime.e2e.ts:53-55 | A repeated response adds nothing to any log until its id is requested again on that port |
| ProtocolTraces.UnsolicitedReplyAddsNothing | apps/desktop/e2e/nodefs-runtime.e2e.ts:53-55 | A response to an id never requested on its port adds nothing to any log |
| ProtocolTraces.RequestsAreConserved | apps/desktop/e2e/nodefs-runtime.e2e.ts:53-69 | Requests sent are those answered, those still open and those whose id was reused while open |
| ProtocolTraces.BooksBalanceIff | apps/desktop/e2e/nodefs-runtime.e2e.ts:53-69 | Sent requests equal answered plus open ones if and only if no request took the id of one still open on its port |
| ProtocolTraces.PendingBalances | apps/desktop/e2e/nodefs-runtime.e2e.ts:53-69 | The observer's pending map for a port holds the open requests, so its size balances sent, answered and reused ids |
| ProtocolTraces.LogsNeedRequests | apps/desktop/e2e/nodefs-runtime.e2e.ts:53-69 | No log is longer than the number of requests for its operation less those still open |
| LoaderRewrite.RewriteIsClean | apps/web/vite.config.ts:11-24 | For every text, none of the six `node:` imports and no `globalThis.process` is left |
| LoaderRewrite.LiteralsAreGone | apps/web/vite.config.ts:23-24 | The seven literals, spelled out, are nowhere in the rewritten text |
| LoaderRewrite.RewriteByLiterals | apps/web/vite.config.ts:22-25 | The whole rewrite as a law of text: each of the six imports is disabled by name, the process object becomes `undefined`, every other character is copied |
| LoaderRewrite.OccurrencesAreCopied | apps/web/vite.config.ts:23-24 | No replacement text, alone or across its borders, creates a new occurrence |
| LoaderRewrite.RewriteKeepsExactlyCleanText | apps/web/vite.config.ts:23-24 | The rewrite changes nothing if and only if the text is already clean |
| LoaderRewrite.RewriteIsIdempotent | apps/web/vite.config.ts:22-25 | A second rewrite changes nothing |
| LoaderRewrite.PassesCommute | apps/web/vite.config.ts:23-24 | Both orders of the two passes equal one simultaneous pass |
| LoaderRewrite.PassKeepsTheRest | apps/web/vite.config.ts:23-24 | A pass splits the text into literals and kept characters, writes both in order, and keeps a character only where no literal begins |
| LoaderRewrite.RewriteSource | apps/web/vite.config.ts:22-24 | The two assignments return text that contains no listed literal, and the very same text if and only if it contained none |
| LoaderRewrite.LoadersOfTheBuild | apps/web/vite.config.ts:18-20 | The five loader paths, in the order they are visited |
| LoaderRewrite.RewrittenFiles | apps/web/vite.config.ts:18-25 | Rewriting loaders rewrites each of them and touches no other file |
| LoaderRewrite.Dist.CloseBundle | apps/web/vite.config.ts:17-30 | Exactly the existing loaders before the first failing variant are rewritten, missing ones are skipped, and other files are untouched |
| Packing.AssertCubePacking | apps/desktop/e2e/arrangement-journey.ts:33-50 | The loops accept exactly the moved layouts of equal size in which every cube stands on a real bed and every pair is separated on an axis |
| Packing.PackedInMillimetres | apps/desktop/e2e/arrangement-journey.ts:40-48 | A layout is packed if and only if every cube stands at cube height with its footprint on a bed in bounds and no two footprints overlap on both axes, in millimetres |
| Packing.ExpectSameCenters | apps/desktop/e2e/arrangement-journey.ts:28-31 | Accepts exactly lists of equal length that agree on every coordinate to five digits |
| Packing.SameInMillimetres | apps/desktop/e2e/arrangement-journey.ts:28-31 | Centres pass for the same if and only if no coordinate is off by half a unit of the fifth digit |
| Packing.RealBeds | apps/desktop/e2e/arrangement-journey.ts:37-39 | The real beds are those not marked out of bounds |
| Packing.BedHoldsItsCapacity | apps/desktop/e2e/arrangement-journey.ts:40-48 | Separated cubes on one bed inject into the cells of its grid, so they number at most the product of its slots |
| Packing.PackedFitsCapacity | apps/desktop/e2e/arrangement-journey.ts:40-48 | An accepted layout fits the capacity of each bed and the sum over all beds |
| Packing.CapacityIsReached | apps/desktop/e2e/arrangement-journey.ts:40-48 | For every bed there is an accepted layout of exactly its capacity, so the bound is exact |
| Packing.DriftIsBounded | apps/desktop/e2e/arrangement-journey.ts:28-48 | A layout taken for an accepted one is still separated by more than 19.99 less 0.00001 and on its beds up to 0.01 plus 0.000005 |
| Xorshift.FillPixels | apps/desktop/e2e/bambu-storage.e2e.ts:57-60 | Entry i is the low byte of state i + 1, every entry is a byte, and the last seed is the length-fold iterate |
| Xorshift.StepIsReversible | apps/desktop/e2e/bambu-storage.e2e.ts:59 | Each step has an explicit inverse on both sides |
| Xorshift.IterateIsInjective | apps/desktop/e2e/bambu-storage.e2e.ts:58-60 | For every number of steps, different seeds lead to different states |
| Xorshift.NeverZero | apps/desktop/e2e/bambu-storage.e2e.ts:57-60 | A run reaches zero if and only if it is seeded with zero |
| Xorshift.RepetitionReachesSeed | apps/desktop/e2e/bambu-storage.e2e.ts:57-60 | The first state ever repeated is the seed |
| Xorshift.RunIsOneCycle | apps/desktop/e2e/bambu-storage.e2e.ts:57-60 | Every run is a pure cycle: two of its states are equal exactly if a whole number of turns lies between them |
| PrimeTower.ReadPoints | apps/desktop/e2e/prime-tower-project.e2e.ts:469-479 | The modal loop yields the specified points |
| PrimeTower.LastSeenIsLatest | apps/desktop/e2e/prime-tower-project.e2e.ts:474-477 | A modal coordinate is the one given by the latest motion line that gives any |
| PrimeTower.PointsAreModalPositions | apps/desktop/e2e/prime-tower-project.e2e.ts:472-479 | There is one point for each motion line once both coordinates are known, in the order of the lines, at the modal position after it |
| PrimeTower.SplitReadsWhatWasWritten | apps/desktop/e2e/prime-tower-project.e2e.ts:472 | Splitting gives back the lines that were written, with any mix of LF and CR LF, unless a line ending in CR is ended by LF alone |
| PrimeTower.AxisFromIsFirst | apps/desktop/e2e/prime-tower-project.e2e.ts:474-475 | The first axis word of a line counts; a letter inside a longer word or without a number does not |
| PrimeTower.WordAtIff | apps/desktop/e2e/prime-tower-project.e2e.ts:474-475 | An axis word is the letter, not preceded by a word character, followed by a number |
| PrimeTower.NumberSucceedsIff | apps/desktop/e2e/prime-tower-project.e2e.ts:474-475 | A number stands exactly where a digit does, or a minus sign and a digit |
| PrimeTower.NumberIsRead | apps/desktop/e2e/prime-tower-project.e2e.ts:474-477 | A written number is read as its decimal value, sign and fraction included, whatever follows that does not continue it |
| TowerPrograms.CodeIsRecognised | apps/desktop/e2e/prime-tower-project.e2e.ts:473 | Of all command words exactly G1, G2 and G3 are motions |
| TowerPrograms.ProgramIsRead | apps/desktop/e2e/prime-tower-project.e2e.ts:469-479 | Reading the text of any program of commands with optional X and Y words gives exactly the positions the program visits, in order |
| PrimeTower.DigitsJoin | apps/desktop/e2e/prime-tower-project.e2e.ts:474-477 | Digits have positional decimal value |
| PrimeTower.BoxTestIsPointwise | apps/desktop/e2e/prime-tower-project.e2e.ts:487-511 | The four bound comparisons hold if and only if every point lies in the footprint widened by 1 |
| PrimeTower.ExpectPrimeTower | apps/desktop/e2e/prime-tower-project.e2e.ts:459-511 | The check passes exactly if the header values fit the plate, the block exists and shows motion, and all its points lie in the widened footprint, or around the native position if there is none |
| PrimeTower.AcceptedInNumbers | apps/desktop/e2e/prime-tower-project.e2e.ts:459-511 | The header and the footprint conditions in numbers, both directions |
| PrimeTower.AcceptedTowerIsOnPlate | apps/desktop/e2e/prime-tower-project.e2e.ts:495-511 | In an accepted file the selected position is the plate's up to both tolerances, and the tower moves on the plate's footprint or around the plate's position |
| PrimeTower.BlockIsDelimited | apps/desktop/e2e/prime-tower-project.e2e.ts:463-472 | The scanned text starts at the first start marker after the first feature marker and contains no end marker |
| PrimeTower.LocateSucceedsIff | apps/desktop/e2e/prime-tower-project.e2e.ts:463-468 | The block is found if and only if the three markers stand in the text in this order |
| PrimeTower.OnlyTextUpToEndMatters | apps/desktop/e2e/prime-tower-project.e2e.ts:463-479 | Texts that agree up to the first end marker have the same block and points |
| PrimeTower.AppendingChangesNothing | apps/desktop/e2e/prime-tower-project.e2e.ts:463-479 | Appending any suffix changes neither block nor points |
| QuitBarrier.Barrier.OnWillQuit | apps/desktop/e2e/bambu-host-smoke.ts:33-37 | An attempt is held back exactly while a created host is unclosed, and only the first such attempt calls close |
| QuitBarrier.Barrier.OnClosed | apps/desktop/e2e/bambu-host-smoke.ts:36 | After completion the follow-up attempt is possible and passes |
| QuitBarrier.Barrier.OnCloseFailed | apps/desktop/e2e/bambu-host-smoke.ts:36 | A failed close call changes none of the barrier's fields |
| QuitBarrier.NoExitWithOpenHost | apps/desktop/e2e/bambu-host-smoke.ts:33-37 | In every legal run the application never exits between host creation and completed close |
| QuitBarrier.FailedCloseNeverExits | apps/desktop/e2e/bambu-host-smoke.ts:36 | If the close call fails, no run ends in an exit |
| QuitBarrier.UnsettledCloseHoldsBack | apps/desktop/e2e/bambu-host-smoke.ts:33-37 | As long as the close call has not completed, no run ends in an exit |
| QuitBarrier.CloseCanFail | apps/desktop/e2e/bambu-host-smoke.ts:36 | A run in which the close call fails is possible, and a further quit attempt after it is held back |
| QuitBarrier.CompletedCloseExits | apps/desktop/e2e/bambu-host-smoke.ts:36 | If it completes, the next attempt exits |
| FrameContinuity.CompleteShowsExactlyOne | apps/desktop/e2e/painting.e2e.ts:264-267 | A recording is accepted exactly if it has more than one frame, each with one representation and the navigator |
| FrameContinuity.SwitchParity | apps/desktop/e2e/painting.e2e.ts:265-266 | The number of switches is odd exactly if first and last frame differ, and zero exactly if the representation never changes |
| FrameContinuity.BothMeansDirectSwitch | apps/desktop/e2e/painting.e2e.ts:322-323 | An accepted recording with both representations switches directly between two neighbouring frames |

## Left out

- Enforce: the accounting is an arbitrary function of the timeline; allocator capacities, which the source also counts, are not part of a timeline, so two equal timelines cannot be charged differently.
- Append: timestamps and entry ids are unbounded, where the source has 64 bits; only the exhaustion of session ids is modelled.
- ActKeepsEditor: the editor takes over restored archives byte for byte; the bridge's serialization of live models, which may differ in derived bytes, is not modelled.
- Begin: refreshing an archived predecessor keeps its model; that the live model still means the same is the caller's duty, as in the source.
- RunIsOneCycle: the cycle length of seed 12345 is not computed.
- ExpectPrimeTower: the header lines arrive parsed, as arrays and selected values; finding and splitting them in the text is not modelled.
- NumberAt: numbers are exact decimals; binary rounding is not modelled.
- CloseBundle: reading and writing are a map of files and a set of failing paths; encodings are not modelled.
- AssertCubePacking: the polling of the page is the sample that ended it.
- Deliver: garbage collection of ports and the dispatch of messages by the browser are not modelled.
- Sharing of archives between timestamps, object version intervals, resource diagnostics, navigation rollback guards and publication callbacks of the history.
- The windows, the IPC handlers and the host itself of the smoke entry.
- Screenshots, pointer journeys, timing, attachments and every other expectation of the end-to-end files.
- The rest of the repository: rendering, printer control, profiles, painting kernels and native code.
