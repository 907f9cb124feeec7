/** An editor is nothing but a caller of the history: each of its actions is one or two public calls,
    so that whatever holds for every run of calls holds for every run of an editor; and its document
    is what the calls returned. */
module EditorCalls {
  import opened Wrappers
  import opened HistoryThreads
  import opened History
  import opened HistorySteps
  import opened HistoryNavigation
  import opened HistoryCompaction
  import opened HistoryRuns
  import opened HistoryLimits
  import opened EditorRuns

  /** The calls an action makes, whether they are accepted or not. */
  function CallsOf(e: Editor, a: Action): seq<Call> {
    match a
    case Edit(title, kind, next) => [BeginOperation(title, e.doc, kind), CommitOperation(next)]
    case Cancel(title, kind) => [BeginOperation(title, e.doc, kind), AbortOperation]
    case SelectOnly(_, _) => []
    case UndoKey => [UndoCall(e.doc)]
    case RedoKey => [RedoCall]
    case JumpTo(target) => [RestoreCall(target, Some(e.doc))]
    case Save => [MarkCurrentAsSaved]
    case Remember(budget) => [SetByteBudget(budget)]
    case OpenPainter => [BeginEditingSession]
    case MergeStrokes(title) => [CompactEditingSession(SessionId(e.timeline), title)]
    case ClosePainter(title) => [CloseEditingSession(SessionId(e.timeline), title)]
    case JumpToEntry(id, after) => [RestoreEntryCall(id, after, Some(e.doc))]
    case Rebind(rewrite, cursor) => [RewriteContextsCall(rewrite, cursor)]
    case StartOver(_, saved) => if saved then [ClearCall, MarkCurrentAsSaved] else [ClearCall]
  }

  lemma TwoCalls(s: Timeline, b: Call, c: Call, bytes: Timeline -> nat)
    requires Inv(s)
    ensures Forward(s.entries) && Inv(Step(s, b, bytes)) && Forward(Step(s, b, bytes).entries)
    ensures Run(s, [b, c], bytes) == Step(Step(s, b, bytes), c, bytes)
  {
    hide Inv, Step, Run;
    OneCall(s, b, bytes);
    RunsJoin(s, [b], [c], bytes);
    assert [b] + [c] == [b, c];
    OneCall(Step(s, b, bytes), c, bytes);
  }

  /** An operation refused at its opening leaves nothing to commit or give up. */
  lemma EditMakesCalls(e: Editor, a: Action, bytes: Timeline -> nat)
    requires EditorInv(e) && Forward(e.timeline.entries) && Inv(e.timeline) && (a.Edit? || a.Cancel?)
    ensures Act(e, a, bytes).timeline == Run(e.timeline, CallsOf(e, a), bytes)
  {
    hide Inv, DeltasCover, SaveIsKnown, Run, Enforce, Append, TruncateRedo, SameShape, Capturable;
    var s := e.timeline;
    match a {
      case Edit(title, kind, next) =>
        TwoCalls(s, BeginOperation(title, e.doc, kind), CommitOperation(next), bytes);
      case Cancel(title, kind) =>
        TwoCalls(s, BeginOperation(title, e.doc, kind), AbortOperation, bytes);
    }
  }

  lemma NavigationMakesCalls(e: Editor, a: Action, bytes: Timeline -> nat)
    requires Inv(e.timeline) && Forward(e.timeline.entries) && (a.UndoKey? || a.RedoKey? || a.JumpTo? || a.JumpToEntry?)
    ensures CallsOf(e, a) != [] && Act(e, a, bytes).timeline == Step(e.timeline, CallsOf(e, a)[0], bytes)
  {
    hide Inv, Forward, Restore, Undo, Redo, RestoreEntry;
  }

  lemma SessionActMakesCalls(e: Editor, a: Action, bytes: Timeline -> nat)
    requires Inv(e.timeline) && Forward(e.timeline.entries)
    requires a.Save? || a.Remember? || a.OpenPainter? || a.MergeStrokes? || a.ClosePainter? || a.Rebind?
    ensures CallsOf(e, a) != [] && Act(e, a, bytes).timeline == Step(e.timeline, CallsOf(e, a)[0], bytes)
  {
    hide Inv, Forward, SetBudget, BeginSession, Compact, Close, RewriteContexts, MarkSaved;
  }

  lemma StartOverMakesCalls(e: Editor, project: Roots, saved: bool, bytes: Timeline -> nat)
    requires Inv(e.timeline) && Forward(e.timeline.entries)
    ensures Act(e, StartOver(project, saved), bytes).timeline == Run(e.timeline, CallsOf(e, StartOver(project, saved)), bytes)
  {
    hide Inv, Run, Clear, MarkSaved;
    OneCall(e.timeline, ClearCall, bytes);
    TwoCalls(e.timeline, ClearCall, MarkCurrentAsSaved, bytes);
  }

  lemma SelectMakesNoCalls(e: Editor, context: Context, plates: set<string>, bytes: Timeline -> nat)
    requires Inv(e.timeline) && Forward(e.timeline.entries)
    ensures Act(e, SelectOnly(context, plates), bytes).timeline == Run(e.timeline, CallsOf(e, SelectOnly(context, plates)), bytes)
  {
    hide Inv;
  }

  /** Each action takes the history where its calls take it. */
  lemma ActMakesCalls(e: Editor, a: Action, bytes: Timeline -> nat)
    requires EditorInv(e)
    ensures Inv(e.timeline) && Forward(e.timeline.entries)
    ensures Act(e, a, bytes).timeline == Run(e.timeline, CallsOf(e, a), bytes)
  {
    EditorHasInv(e);
    EdgesPointForward(e.timeline);
    SingleCalls(e, a);
    hide EditorInv, Inv, Run, Act, CallsOf, Step, Forward;
    if a.Edit? || a.Cancel? {
      EditMakesCalls(e, a, bytes);
    } else if a.SelectOnly? {
      SelectMakesNoCalls(e, a.context, a.plates, bytes);
    } else if a.StartOver? {
      StartOverMakesCalls(e, a.project, a.saved, bytes);
    } else {
      if a.UndoKey? || a.RedoKey? || a.JumpTo? || a.JumpToEntry? {
        NavigationMakesCalls(e, a, bytes);
      } else {
        SessionActMakesCalls(e, a, bytes);
      }
      OneCall(e.timeline, CallsOf(e, a)[0], bytes);
    }
  }

  lemma SingleCalls(e: Editor, a: Action)
    ensures !a.Edit? && !a.Cancel? && !a.SelectOnly? && !a.StartOver? ==>
              CallsOf(e, a) != [] && CallsOf(e, a) == [CallsOf(e, a)[0]]
  {
  }

  lemma NoCalls(s: Timeline, bytes: Timeline -> nat)
    requires Inv(s)
    ensures Run(s, [], bytes) == s
  {
  }

  /** The calls a run of the editor makes. */
  ghost function CallsOfRun(e: Editor, actions: seq<Action>, bytes: Timeline -> nat): seq<Call>
    requires EditorInv(e)
    decreases |actions|
  {
    if actions == [] then []
    else
      ActKeepsEditor(e, actions[0], bytes);
      CallsOf(e, actions[0]) + CallsOfRun(Act(e, actions[0], bytes), actions[1..], bytes)
  }

  /** Every run of an editor is a run of the history. */
  lemma {:induction false} EditorRunsAreRuns(e: Editor, actions: seq<Action>, bytes: Timeline -> nat)
    requires EditorInv(e)
    ensures Inv(e.timeline)
    ensures RunEditor(e, actions, bytes).timeline == Run(e.timeline, CallsOfRun(e, actions, bytes), bytes)
    decreases |actions|
  {
    hide EditorInv, Inv, Act, CallsOf, Run;
    EditorHasInv(e);
    if actions == [] {
      NoCalls(e.timeline, bytes);
    } else {
      ActKeepsEditor(e, actions[0], bytes);
      ActMakesCalls(e, actions[0], bytes);
      var f := Act(e, actions[0], bytes);
      EditorRunsAreRuns(f, actions[1..], bytes);
      RunsJoin(e.timeline, CallsOf(e, actions[0]), CallsOfRun(f, actions[1..], bytes), bytes);
    }
  }

  // ---------- the document ----------

  /** The document is the state and the context that were restored. */
  ghost predicate Holds(e: Editor, x: Snapshot) {
    e.doc.model == x.model && e.doc.context == x.context
  }

  /** After an accepted jump the document is what the target stood for, context included. */
  lemma JumpTakesOver(e: Editor, target: nat, bytes: Timeline -> nat)
    requires EditorInv(e) && Forward(e.timeline.entries) && Restore(e.timeline, target, Some(e.doc), bytes).Some?
    ensures CanLeave(e.timeline, Some(e.doc))
    ensures target in Moved(e.timeline, target, Some(e.doc)).snapshots
    ensures Holds(Act(e, JumpTo(target), bytes), Moved(e.timeline, target, Some(e.doc)).snapshots[target])
  {
    hide EditorInv, Inv, Restore, ListsTrimmed, OnlyLost, Visible, Enforce, CanLeave, AtCursor;
    EditorHasInv(e);
    var k, m := RestoreMovesAlongLine(e.timeline, target, Some(e.doc), bytes);
  }

  lemma UndoTakesOver(e: Editor, bytes: Timeline -> nat)
    requires Forward(e.timeline.entries) && Undo(e.timeline, e.doc, bytes).Some?
    ensures Holds(Act(e, UndoKey, bytes), Undo(e.timeline, e.doc, bytes).value.1.snapshot)
    ensures Act(e, UndoKey, bytes).timeline == Undo(e.timeline, e.doc, bytes).value.0
  {
    hide Undo;
  }

  lemma RedoTakesOver(e: Editor, bytes: Timeline -> nat)
    requires Forward(e.timeline.entries) && Redo(e.timeline, bytes).Some?
    ensures Holds(Act(e, RedoKey, bytes), Redo(e.timeline, bytes).value.1.snapshot)
  {
    hide Redo;
  }

  lemma DocumentIsAtCursor(e: Editor)
    requires EditorInv(e) && CanLeave(e.timeline, Some(e.doc))
    ensures AtCursor(e.timeline, Some(e.doc)).model == e.doc.model
  {
    hide Inv, DeltasCover, Capturable;
  }

  /** Undo followed by Redo brings back the very document, with the context it had if its state was
      not archived before and the archived one otherwise. */
  lemma UndoRedoRestoresDocument(e: Editor, bytes: Timeline -> nat)
    requires EditorInv(e) && Inv(e.timeline) && Forward(e.timeline.entries) && Undo(e.timeline, e.doc, bytes).Some?
    ensures CanLeave(e.timeline, Some(e.doc))
    ensures var f := Act(e, UndoKey, bytes);
            && EditorInv(f) && Inv(f.timeline) && Forward(f.timeline.entries)
            && UndoList(e.timeline) != []
            && (var p := UndoList(e.timeline)[|UndoList(e.timeline)| - 1];
                p in e.timeline.snapshots && Holds(f, e.timeline.snapshots[p]))
            && Redo(f.timeline, bytes).Some?
            && Holds(Act(f, RedoKey, bytes), AtCursor(e.timeline, Some(e.doc)))
            && Act(f, RedoKey, bytes).doc.model == e.doc.model
  {
    hide EditorInv, Inv, Undo, Redo, UndoList, RedoList, Act, CanLeave, AtCursor;
    ActKeepsEditor(e, UndoKey, bytes);
    UndoThenRedo(e.timeline, e.doc, bytes);
    UndoTakesOver(e, bytes);
    var f := Act(e, UndoKey, bytes);
    EditorHasInv(f);
    EdgesPointForward(f.timeline);
    RedoTakesOver(f, bytes);
    DocumentIsAtCursor(e);
  }

  /** After a save the project is unmodified and the document is what was saved. */
  lemma SaveIsTaken(e: Editor, bytes: Timeline -> nat)
    requires EditorInv(e) && Forward(e.timeline.entries)
    ensures var f := Act(e, Save, bytes);
            !Modified(f.timeline) && f.doc == e.doc && f.lastSave == LastSave(Some(e.timeline.current), e.doc.model)
  {
  }

  /** An edit whose opening is accepted makes the new state the document, context and plates
      included; one whose opening is refused changes nothing. */
  lemma EditTakesOver(e: Editor, title: string, kind: OperationKind, next: Roots, bytes: Timeline -> nat)
    requires EditorInv(e) && Forward(e.timeline.entries)
    ensures var f := Act(e, Edit(title, kind, next), bytes);
            if Begin(e.timeline, title, e.doc, kind).Some? then f.doc == next && f.lastSave == e.lastSave else f == e
  {
    hide EditorInv, Begin, Commit;
    EditorHasInv(e);
    var b := Begin(e.timeline, title, e.doc, kind);
    if b.Some? {
      BeginOpensOperation(e.timeline, title, e.doc, kind);
      OuterCommitSucceeds(b.value, next, bytes);
    }
  }

  lemma BeginOpensOperation(s: Timeline, title: string, pred: Roots, kind: OperationKind)
    requires Begin(s, title, pred, kind).Some?
    ensures Begin(s, title, pred, kind).value.operation.Some?
  {
    hide Capturable, SameShape;
  }

  /** Everything but edits, jumps and starting over leaves the model and the plates alone, a refused
      jump leaves everything alone, and only selections and rebinding touch the context. */
  lemma OthersKeepDocument(e: Editor, a: Action, bytes: Timeline -> nat)
    requires EditorInv(e) && Forward(e.timeline.entries)
    ensures a.Save? || a.Remember? || a.OpenPainter? || a.MergeStrokes? || a.ClosePainter? ==> Act(e, a, bytes).doc == e.doc
    ensures a.UndoKey? && Undo(e.timeline, e.doc, bytes) == None ==> Act(e, a, bytes) == e
    ensures a.RedoKey? && Redo(e.timeline, bytes) == None ==> Act(e, a, bytes) == e
    ensures a.JumpTo? && Restore(e.timeline, a.target, Some(e.doc), bytes) == None ==> Act(e, a, bytes) == e
    ensures a.SelectOnly? ==> Act(e, a, bytes) == e.(doc := Roots(e.doc.model, a.context, a.plates))
    ensures a.Rebind? ==>
              var f := Act(e, a, bytes);
              && f.doc.model == e.doc.model && f.doc.scenePlates == e.doc.scenePlates && f.lastSave == e.lastSave
              && f.doc.context.plateSession == e.doc.context.plateSession && f.doc.context.projectConfig == e.doc.context.projectConfig
              && f.doc.context.historyContext ==
                   (if RewriteContexts(e.timeline, a.rewrite, a.cursorContext).Some? && a.cursorContext.Some?
                    then a.cursorContext.value else e.doc.context.historyContext)
    ensures a.StartOver? ==>
              var f := Act(e, a, bytes);
              f.doc == a.project && (Modified(f.timeline) <==> !a.saved) && f.timeline.snapshots == map[] && f.timeline.entries == []
  {
    hide EditorInv, Begin, Commit, Abort, Undo, Redo, Restore, SetBudget, BeginSession, Compact, Close, RewriteContexts;
  }
}
