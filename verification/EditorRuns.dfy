/** The project editor that owns the history: it hands its document to every call and takes over
    what comes back. For any run of such an editor the history behaves like the textbook pair of
    undo and redo stacks that forgets at the far ends, its scene deltas name everything that
    changed, and an unmodified project is the project that was saved. */
module EditorRuns {
  import opened Wrappers
  import opened HistoryThreads
  import opened History
  import opened HistorySteps
  import opened HistoryNavigation
  import opened HistoryCompaction
  import opened HistoryRuns

  /** When and as what the project file was last written: a new project has never been. */
  datatype LastSave = LastSave(at: Option<nat>, model: Model)

  datatype Editor = Editor(timeline: Timeline, doc: Roots, lastSave: LastSave)

  datatype Action =
    | Edit(title: string, kind: OperationKind, next: Roots)
    | Cancel(title: string, kind: OperationKind)
    | SelectOnly(context: Context, plates: set<string>)
    | UndoKey
    | RedoKey
    | JumpTo(target: nat)
    | Save
    | Remember(budget: nat)
    | OpenPainter
    | MergeStrokes(mergeTitle: string)
    | ClosePainter(closeTitle: string)
    | JumpToEntry(entryId: nat, after: bool)
    | Rebind(rewrite: Bytes -> Option<Bytes>, cursorContext: Option<Bytes>)
    | StartOver(project: Roots, saved: bool)

  function Adopt(e: Editor, r: Option<(Timeline, Restored)>): Editor {
    match r
    case None => e
    case Some((t, restored)) =>
      e.(timeline := t, doc := Roots(restored.snapshot.model, restored.snapshot.context, e.doc.scenePlates))
  }

  /** An editor with an empty history, whose project counts as saved or not. */
  function Fresh(s: Timeline, project: Roots, saved: bool): Editor {
    Editor(if saved then MarkSaved(s) else s, project, LastSave(if saved then Some(s.current) else None, project.model))
  }

  function SessionId(s: Timeline): nat {
    if s.session.Some? then s.session.value.id else 0
  }

  function Act(e: Editor, a: Action, bytes: Timeline -> nat): Editor
    requires Forward(e.timeline.entries)
  {
    var s := e.timeline;
    match a
    case Edit(title, kind, next) =>
      var b := Begin(s, title, e.doc, kind);
      if b.None? then e
      else var c := Commit(b.value, next, bytes);
           if c.None? then e else e.(timeline := c.value, doc := next)
    case Cancel(title, kind) =>
      var b := Begin(s, title, e.doc, kind);
      if b.None? then e
      else var c := Abort(b.value);
           if c.None? then e
           else Editor(c.value.0, Roots(c.value.1.model, c.value.1.context, e.doc.scenePlates), e.lastSave)
    case SelectOnly(context, plates) => e.(doc := e.doc.(context := context, scenePlates := plates))
    case UndoKey => Adopt(e, Undo(s, e.doc, bytes))
    case RedoKey => Adopt(e, Redo(s, bytes))
    case JumpTo(target) => Adopt(e, Restore(s, target, Some(e.doc), bytes))
    case Save => Editor(MarkSaved(s), e.doc, LastSave(Some(s.current), e.doc.model))
    case Remember(budget) => e.(timeline := SetBudget(s, budget, bytes))
    case OpenPainter => e.(timeline := OrSame(s, BeginSession(s)))
    case MergeStrokes(title) => e.(timeline := OrSame(s, Compact(s, SessionId(s), title, bytes)))
    case ClosePainter(title) => e.(timeline := OrSame(s, Close(s, SessionId(s), title, bytes)))
    case JumpToEntry(id, after) => Adopt(e, RestoreEntry(s, id, after, Some(e.doc), bytes))
    case Rebind(rewrite, cursor) =>
      var r := RewriteContexts(s, rewrite, cursor);
      if r.None? then e
      else e.(timeline := r.value,
              doc := if cursor.None? then e.doc else e.doc.(context := e.doc.context.(historyContext := cursor.value)))
    case StartOver(project, saved) => Fresh(Clear(s), project, saved)
  }

  /** The model that timestamp `t` stands for. */
  ghost function ModelAt(s: Timeline, doc: Model, t: nat): Model {
    if t in s.snapshots then s.snapshots[t].model else doc
  }

  ghost predicate DeltasCover(s: Timeline, doc: Model) {
    EdgesCover(s.entries, s, doc)
  }

  /** Each edge's delta names every object that differs between its two ends. */
  ghost predicate EdgesCover(es: seq<Entry>, s: Timeline, doc: Model) {
    forall en <- es :: Covers(en.delta, ModelAt(s, doc, en.before).objects, ModelAt(s, doc, en.after).objects)
  }

  ghost predicate EditorInv(e: Editor) {
    && Inv(e.timeline)
    && e.timeline.operation.None?
    && ModelAt(e.timeline, e.doc.model, e.timeline.current) == e.doc.model
    && DeltasCover(e.timeline, e.doc.model)
    && (e.timeline.saved.Some? ==> ModelAt(e.timeline, e.doc.model, e.timeline.saved.value) == e.lastSave.model)
    && SaveIsKnown(e.timeline, e.lastSave.at)
  }

  /** The marker is where the last save was made, or that timestamp is gone for good. */
  ghost predicate SaveIsKnown(s: Timeline, at: Option<nat>) {
    if s.savedEvicted then s.saved.None? && at.Some? && at.value < s.nextTimestamp && at.value !in Available(s)
    else s.saved == at
  }

  ghost function Plain(s: Timeline, doc: Model, saved: LastSave): Editor {
    Editor(s, Roots(doc, Context([], [], []), {}), saved)
  }

  lemma AvailableIsPast(s: Timeline)
    requires Inv(s)
    ensures forall t <- Available(s) :: t < s.nextTimestamp
    ensures s.saved.Some? ==> s.saved.value in Available(s)
  {
    hide Threaded;
  }

  /** Losing archives loses the marker only with the archive it is at. */
  lemma LossKeepsSave(s: Timeline, u: Timeline, at: Option<nat>)
    requires Inv(s) && Inv(u) && SaveIsKnown(s, at) && u.current == s.current && u.nextTimestamp == s.nextTimestamp
    requires forall t <- u.snapshots :: t in s.snapshots
    requires (u.saved == s.saved && u.savedEvicted == s.savedEvicted) || SavedLost(s, u)
    ensures SaveIsKnown(u, at)
  {
    AvailableIsPast(s);
    AvailableIsPast(u);
    hide Inv;
  }

  /** Losing archives and edges cannot spoil what is kept. */
  lemma LossKeepsEditor(s: Timeline, u: Timeline, doc: Model, saved: LastSave)
    requires EditorInv(Plain(s, doc, saved)) && Inv(u) && OnlyLost(s, u)
    ensures EditorInv(Plain(u, doc, saved))
  {
    hide EdgesInv, MarksInv, Covers, SaveIsKnown;
    EndsAreAvailable(u);
    LossKeepsSave(s, u, saved.at);
    assert forall t <- Available(u) :: ModelAt(u, doc, t) == ModelAt(s, doc, t);
  }

  lemma ContextIsFree(e: Editor, f: Editor)
    requires EditorInv(e) && f.timeline == e.timeline && f.doc.model == e.doc.model && f.lastSave == e.lastSave
    ensures EditorInv(f)
  {
    hide Inv;
  }

  // ---------- navigation ----------

  lemma MovedKeepsEditor(e: Editor, target: nat)
    requires EditorInv(e) && target in Available(e.timeline) && !BelowFloor(e.timeline, target)
    requires CanLeave(e.timeline, Some(e.doc))
    ensures var c := Moved(e.timeline, target, Some(e.doc));
            EditorInv(Plain(c, c.snapshots[target].model, e.lastSave))
  {
    hide EdgesInv, Covers, Capturable;
    var s := e.timeline;
    var c := Moved(s, target, Some(e.doc));
    MovedKeepsInv(s, target, Some(e.doc));
    EndsAreAvailable(s);
    assert MarksInv(s);
    assert forall t <- Available(s) :: t in c.snapshots && c.snapshots[t].model == ModelAt(s, e.doc.model, t);
  }

  lemma EndsAreAvailable(s: Timeline)
    requires Inv(s)
    ensures forall en <- s.entries :: en.before in Available(s) && en.after in Available(s)
    ensures s.saved.Some? ==> s.saved.value in Available(s)
  {
  }

  lemma JumpKeepsEditor(e: Editor, target: nat, live: Option<Roots>, bytes: Timeline -> nat)
    requires EditorInv(e) && Forward(e.timeline.entries) && (live == Some(e.doc) || live == None)
    ensures EditorInv(Adopt(e, Restore(e.timeline, target, live, bytes)))
  {
    hide EdgesInv, MarksInv, Threaded, Restore, Capturable, ListsTrimmed, DeltasCover, OnlyLost, Visible;
    if Restore(e.timeline, target, live, bytes).Some? {
      TargetIsAvailable(e.timeline, target, live, bytes);
      RestoreSucceedsIff(e.timeline, target, live, bytes);
      var k, m := RestoreMovesAlongLine(e.timeline, target, live, bytes);
      assert Moved(e.timeline, target, live) == Moved(e.timeline, target, Some(e.doc));
      MovedKeepsEditor(e, target);
      var c := Moved(e.timeline, target, live);
      var (u, r) := Restore(e.timeline, target, live, bytes).value;
      LossKeepsEditor(c, u, r.snapshot.model, e.lastSave);
      ContextIsFree(Plain(u, r.snapshot.model, e.lastSave), Adopt(e, Restore(e.timeline, target, live, bytes)));
    }
  }

  // ---------- the deltas ----------

  lemma NothingChanged(a: seq<MutableObject>)
    ensures Covers(EMPTY_DELTA, a, a)
  {
  }

  lemma CoversBothWays(d: SceneDelta, a: seq<MutableObject>, b: seq<MutableObject>)
    requires Covers(d, a, b)
    ensures Covers(d, b, a)
  {
  }

  lemma {:induction false} CollectCovers(s: Timeline, doc: Model, from: nat, to: nat)
    requires Inv(s) && DeltasCover(s, doc) && Forward(s.entries) && Collect(s.entries, from, to).Some?
    ensures Covers(Collect(s.entries, from, to).value, ModelAt(s, doc, from).objects, ModelAt(s, doc, to).objects)
    decreases if to < from then from - to else to - from
  {
    hide Inv, Covers, ModelAt, Forward;
    assert Forward(s.entries);
    if from == to {
      NothingChanged(ModelAt(s, doc, from).objects);
    } else if to < from {
      var e := UndoEntry(s.entries, from).value;
      assert e.before < from by { EdgeIsForward(s, e); }
      CollectCovers(s, doc, e.before, to);
      CoversBothWays(e.delta, ModelAt(s, doc, e.before).objects, ModelAt(s, doc, from).objects);
      CoversCompose(e.delta, Collect(s.entries, e.before, to).value, ModelAt(s, doc, from).objects,
                    ModelAt(s, doc, e.before).objects, ModelAt(s, doc, to).objects);
    } else {
      var e := RedoEntry(s.entries, from).value;
      assert from < e.after by { EdgeIsForward(s, e); }
      CollectCovers(s, doc, e.after, to);
      CoversCompose(e.delta, Collect(s.entries, e.after, to).value, ModelAt(s, doc, from).objects,
                    ModelAt(s, doc, e.after).objects, ModelAt(s, doc, to).objects);
    }
  }

  lemma EdgeIsForward(s: Timeline, e: Entry)
    requires Inv(s) && e in s.entries
    ensures e.before < e.after
  {
  }

  /** Whatever was jumped over, every object that differs between the document before a jump and
      the restored one is named in the delta the jump returns, with its old and new parts. */
  lemma JumpDeltaCovers(e: Editor, target: nat, bytes: Timeline -> nat)
    requires EditorInv(e) && Forward(e.timeline.entries)
    requires Restore(e.timeline, target, Some(e.doc), bytes).Some?
    ensures var r := Restore(e.timeline, target, Some(e.doc), bytes).value.1;
            && Covers(r.delta, e.doc.model.objects, r.snapshot.model.objects)
            && |r.objectOrder| == |r.snapshot.model.objects|
            && forall i | 0 <= i < |r.objectOrder| :: r.objectOrder[i] == r.snapshot.model.objects[i].id
  {
    hide Threaded, MarksInv, Covers, Capturable, Enforce, Collect;
    var s := e.timeline;
    CollectCovers(s, e.doc.model, s.current, target);
  }

  // ---------- edits ----------

  lemma OpenedKeepsEditor(e: Editor, title: string, kind: OperationKind)
    requires EditorInv(e) && Begin(e.timeline, title, e.doc, kind).Some?
    ensures var b := Begin(e.timeline, title, e.doc, kind).value;
            && EditorInv(Plain(b.(operation := None), e.doc.model, e.lastSave))
            && Inv(b) && b.operation.Some? && b.operation.value.depth == 1
            && b.operation.value.before == b.current == e.timeline.current && b.current in b.snapshots
            && b.operation.value.objects == e.doc.model.objects
            && b.nextTimestamp == e.timeline.nextTimestamp
  {
    hide Threaded, Covers, SameShape, Capturable;
    var s := e.timeline;
    var b := Begin(s, title, e.doc, kind).value;
    BeginKeepsInv(s, title, e.doc, kind);
    EndsAreAvailable(s);
    var c := b.(operation := None);
    assert Available(c) == Available(s);
    assert forall t <- Available(s) :: ModelAt(c, e.doc.model, t) == ModelAt(s, e.doc.model, t);
    assert Inv(c) by { hide EditorInv, DeltasCover; }
  }

  lemma AppendKeepsEditor(s: Timeline, doc: Model, saved: LastSave, op: Operation, succ: Roots)
    requires EditorInv(Plain(s, doc, saved)) && s.current in s.snapshots
    requires op.before == s.current && op.objects == doc.objects && RedoEntry(s.entries, s.current) == None
    ensures EditorInv(Plain(Append(s, op, succ), succ.model, saved))
  {
    hide Threaded, MarksInv, Covers;
    var u := Append(s, op, succ);
    AppendKeepsInv(s, op, succ);
    EndsAreAvailable(s);
    assert forall t <- Available(s) :: ModelAt(u, succ.model, t) == ModelAt(s, doc, t);
    assert Covers(NewEntry(s, op, succ).delta, doc.objects, succ.model.objects);
  }

  lemma EditKeepsEditor(e: Editor, title: string, kind: OperationKind, next: Roots, bytes: Timeline -> nat)
    requires EditorInv(e) && Forward(e.timeline.entries)
    ensures EditorInv(Act(e, Edit(title, kind, next), bytes))
  {
    hide EditorInv, Inv, Begin, Append, TruncateRedo, Enforce, OnlyLost, ListsTrimmed;
    if Begin(e.timeline, title, e.doc, kind).Some? {
      OpenedKeepsEditor(e, title, kind);
      var b := Begin(e.timeline, title, e.doc, kind).value;
      var closed := b.(operation := None);
      var cut := TruncateRedo(closed);
      CutKeepsEditor(closed, e.doc.model, e.lastSave);
      var grown := Append(cut, b.operation.value, next);
      AppendKeepsEditor(cut, e.doc.model, e.lastSave, b.operation.value, next);
      EditorHasInv(Plain(grown, next.model, e.lastSave));
      var k, m := EnforceTrims(grown, bytes, false);
      var u := Enforce(grown, bytes, false);
      LossKeepsEditor(grown, u, next.model, e.lastSave);
      ContextIsFree(Plain(u, next.model, e.lastSave), Act(e, Edit(title, kind, next), bytes));
    }
  }

  lemma EditorHasInv(e: Editor)
    requires EditorInv(e)
    ensures Inv(e.timeline) && e.timeline.operation.None?
  {
  }

  lemma CutKeepsEditor(s: Timeline, doc: Model, saved: LastSave)
    requires EditorInv(Plain(s, doc, saved)) && s.current in s.snapshots
    ensures var u := TruncateRedo(s);
            && EditorInv(Plain(u, doc, saved)) && OnlyLost(s, u) && u.current == s.current && u.current in u.snapshots
            && RedoEntry(u.entries, u.current) == None
  {
    hide EdgesInv, MarksInv, DeltasCover, FirstLeaving;
    TruncateKeepsInv(s);
    TruncateCutsRedo(s);
    LossKeepsEditor(s, TruncateRedo(s), doc, saved);
  }

  lemma CancelKeepsEditor(e: Editor, title: string, kind: OperationKind, bytes: Timeline -> nat)
    requires EditorInv(e) && Forward(e.timeline.entries)
    ensures EditorInv(Act(e, Cancel(title, kind), bytes))
    ensures Act(e, Cancel(title, kind), bytes) == e
  {
    hide EdgesInv, MarksInv, DeltasCover, Begin, Abort;
    if Begin(e.timeline, title, e.doc, kind).Some? {
      AbortUndoesBegin(e.timeline, title, e.doc, kind);
    }
  }

  // ---------- sessions ----------

  lemma {:induction false} MergedEdgesCover(es: seq<Entry>, n: nat, sid: nat, title: string, s: Timeline, doc: Model)
    requires n <= |es| && EdgesCover(es, s, doc)
    ensures EdgesCover(MergeRuns(es, n, sid, title), s, doc)
    decreases |es|
  {
    hide Covers, ModelAt;
    if n >= 2 {
      if Mergeable(es[0], es[1], sid) {
        var a, b := es[0], es[1];
        assert a in es && b in es;
        CoversCompose(a.delta, b.delta, ModelAt(s, doc, a.before).objects, ModelAt(s, doc, a.after).objects,
                      ModelAt(s, doc, b.after).objects);
        MergedEdgesCover([Combine(a, b, title)] + es[2..], n - 1, sid, title, s, doc);
      } else {
        assert es[0] in es;
        MergedEdgesCover(es[1..], n - 1, sid, title, s, doc);
      }
    }
  }

  lemma MergeKeepsEditor(s: Timeline, doc: Model, saved: LastSave, title: string)
    requires EditorInv(Plain(s, doc, saved)) && s.session.Some?
    ensures EditorInv(Plain(MergeSession(s, title), doc, saved))
  {
    hide EdgesInv, MarksInv, Covers, MergeRuns, InsideRuns, AppliedCount, SaveIsKnown;
    var u := MergeSession(s, title);
    MergeKeepsInv(s, title);
    MergeKeepsMarks(s, title);
    LossKeepsSave(s, u, saved.at);
    MergedEdgesCover(s.entries, AppliedCount(s.entries, s.current), s.session.value.id, title, s, doc);
    EndsAreAvailable(u);
    assert forall t <- Available(u) :: ModelAt(u, doc, t) == ModelAt(s, doc, t);
  }

  lemma EnforceKeepsEditor(s: Timeline, doc: Model, saved: LastSave, bytes: Timeline -> nat, preserveRedo: bool)
    requires EditorInv(Plain(s, doc, saved))
    ensures EditorInv(Plain(Enforce(s, bytes, preserveRedo), doc, saved))
  {
    hide EditorInv, Inv, OnlyLost, ListsTrimmed, Enforce;
    EditorHasInv(Plain(s, doc, saved));
    var k, m := EnforceTrims(s, bytes, preserveRedo);
    LossKeepsEditor(s, Enforce(s, bytes, preserveRedo), doc, saved);
  }

  lemma MarksKeepEditor(s: Timeline, u: Timeline, doc: Model, saved: LastSave)
    requires EditorInv(Plain(s, doc, saved)) && Inv(u)
    requires u == s.(floor := u.floor, session := u.session, nextSession := u.nextSession, budget := u.budget)
    ensures EditorInv(Plain(u, doc, saved))
  {
    hide EdgesInv, MarksInv, Covers;
    assert forall t {:trigger ModelAt(u, doc, t)} :: ModelAt(u, doc, t) == ModelAt(s, doc, t);
  }

  lemma CloseKeepsEditor(s: Timeline, doc: Model, saved: LastSave, sid: nat, title: string, bytes: Timeline -> nat)
    requires EditorInv(Plain(s, doc, saved)) && Closable(s, sid)
    ensures EditorInv(Plain(Compact(s, sid, title, bytes).value, doc, saved))
    ensures EditorInv(Plain(Close(s, sid, title, bytes).value, doc, saved))
  {
    hide EditorInv, EdgesInv, MarksInv, MergeSession, TruncateRedo, Enforce, InsideRuns;
    var merged := MergeSession(s, title);
    MergeKeepsEditor(s, doc, saved, title);
    EnforceKeepsEditor(merged, doc, saved, bytes, true);
    EditorHasInv(Plain(merged, doc, saved));
    var effective := s.session.value.effective;
    var cut := if effective then TruncateRedo(merged) else merged;
    if effective {
      TruncateKeepsInv(merged);
      LossKeepsEditor(merged, cut, doc, saved);
    }
    EditorHasInv(Plain(cut, doc, saved));
    EndSessionKeepsLists(cut);
    MarksKeepEditor(cut, EndSession(cut), doc, saved);
    EnforceKeepsEditor(EndSession(cut), doc, saved, bytes, !effective);
  }

  // ---------- whole runs ----------

  lemma NoSession(s: Timeline, title: string, bytes: Timeline -> nat)
    requires s.session.None?
    ensures Compact(s, SessionId(s), title, bytes).None? && Close(s, SessionId(s), title, bytes).None?
  {
  }

  lemma SaveKeepsEditor(e: Editor, bytes: Timeline -> nat)
    requires EditorInv(e) && Forward(e.timeline.entries)
    ensures EditorInv(Act(e, Save, bytes))
  {
    hide Threaded, Covers, Enforce;
    var u := MarkSaved(e.timeline);
    assert EdgesInv(u) && MarksInv(u);
    assert forall t {:trigger ModelAt(u, e.doc.model, t)} :: ModelAt(u, e.doc.model, t) == ModelAt(e.timeline, e.doc.model, t);
  }

  lemma MarkerActKeepsEditor(e: Editor, a: Action, bytes: Timeline -> nat)
    requires EditorInv(e) && Forward(e.timeline.entries)
    requires a.SelectOnly? || a.Save? || a.Remember? || a.OpenPainter? || a.MergeStrokes? || a.ClosePainter?
    ensures EditorInv(Act(e, a, bytes))
  {
    hide Threaded, Covers, Enforce, Compact, Close, ModelAt;
    var s := e.timeline;
    var p := Plain(s, e.doc.model, e.lastSave);
    match a {
      case SelectOnly(_, _) => ContextIsFree(e, Act(e, a, bytes));
      case Save => SaveKeepsEditor(e, bytes);
      case Remember(budget) =>
        MarksKeepEditor(s, s.(budget := budget), e.doc.model, e.lastSave);
        EnforceKeepsEditor(s.(budget := budget), e.doc.model, e.lastSave, bytes, false);
      case OpenPainter => MarksKeepEditor(s, OrSame(s, BeginSession(s)), e.doc.model, e.lastSave);
      case MergeStrokes(title) => if s.session.Some? { CloseKeepsEditor(s, e.doc.model, e.lastSave, SessionId(s), title, bytes); }
        else { NoSession(s, title, bytes); }
      case ClosePainter(title) => if s.session.Some? { CloseKeepsEditor(s, e.doc.model, e.lastSave, SessionId(s), title, bytes); }
        else { NoSession(s, title, bytes); }
    }
  }

  lemma RebindKeepsEditor(e: Editor, rewrite: Bytes -> Option<Bytes>, cursor: Option<Bytes>, bytes: Timeline -> nat)
    requires EditorInv(e) && Forward(e.timeline.entries)
    ensures EditorInv(Act(e, Rebind(rewrite, cursor), bytes))
  {
    hide EdgesInv, MarksInv, Covers, RewriteContexts;
    var s := e.timeline;
    if RewriteContexts(s, rewrite, cursor).Some? {
      RewriteStep(s, rewrite, cursor);
      var u := RewriteContexts(s, rewrite, cursor).value;
      assert forall t {:trigger ModelAt(u, e.doc.model, t)} :: ModelAt(u, e.doc.model, t) == ModelAt(s, e.doc.model, t);
    }
  }

  lemma ClearKeepsEditor(s: Timeline, project: Roots, saved: bool)
    ensures EditorInv(Fresh(Clear(s), project, saved))
  {
  }

  lemma ActKeepsEditor(e: Editor, a: Action, bytes: Timeline -> nat)
    requires EditorInv(e)
    ensures Forward(e.timeline.entries) && EditorInv(Act(e, a, bytes))
  {
    hide EditorInv, Inv, Restore;
    EditorHasInv(e);
    EdgesPointForward(e.timeline);
    match a {
      case Edit(title, kind, next) => EditKeepsEditor(e, title, kind, next, bytes);
      case Cancel(title, kind) => CancelKeepsEditor(e, title, kind, bytes);
      case UndoKey =>
        UndoIsRestore(e.timeline, e.doc, bytes);
        if UndoList(e.timeline) != [] {
          JumpKeepsEditor(e, UndoList(e.timeline)[|UndoList(e.timeline)| - 1], Some(e.doc), bytes);
        }
      case RedoKey =>
        RedoIsRestore(e.timeline, bytes);
        if RedoList(e.timeline) != [] {
          JumpKeepsEditor(e, RedoList(e.timeline)[0], None, bytes);
        }
      case JumpTo(target) => JumpKeepsEditor(e, target, Some(e.doc), bytes);
      case JumpToEntry(id, after) =>
        if EntryById(e.timeline.entries, id).Some? {
          var entry := EntryById(e.timeline.entries, id).value;
          JumpKeepsEditor(e, if after then entry.after else entry.before, Some(e.doc), bytes);
        }
      case Rebind(rewrite, cursor) => RebindKeepsEditor(e, rewrite, cursor, bytes);
      case StartOver(project, saved) => ClearKeepsEditor(e.timeline, project, saved);
      case _ => MarkerActKeepsEditor(e, a, bytes);
    }
  }

  ghost function RunEditor(e: Editor, actions: seq<Action>, bytes: Timeline -> nat): Editor
    requires EditorInv(e)
    decreases |actions|
  {
    if actions == [] then e
    else
      ActKeepsEditor(e, actions[0], bytes);
      RunEditor(Act(e, actions[0], bytes), actions[1..], bytes)
  }

  function NewProject(budget: nat, doc: Roots): Editor {
    Fresh(Empty(budget, 1), doc, false)
  }

  lemma NewProjectKeepsEditor(budget: nat, doc: Roots)
    ensures EditorInv(NewProject(budget, doc))
  {
  }

  /** In every run: the project is reported as unmodified exactly while the cursor is where the
      last save was made, and then it holds the very model that was saved, even if archives were
      evicted, merged away or branched off in between. */
  lemma {:induction false} UnmodifiedIsSaved(e: Editor, actions: seq<Action>, bytes: Timeline -> nat)
    requires EditorInv(e)
    ensures var f := RunEditor(e, actions, bytes);
            && EditorInv(f)
            && (!Modified(f.timeline) <==> f.lastSave.at == Some(f.timeline.current))
            && (!Modified(f.timeline) ==> f.doc.model == f.lastSave.model)
    decreases |actions|
  {
    hide Inv, DeltasCover, Act;
    if actions != [] {
      ActKeepsEditor(e, actions[0], bytes);
      UnmodifiedIsSaved(Act(e, actions[0], bytes), actions[1..], bytes);
    }
  }

  predicate Saves(a: Action) {
    a.Save? || (a.StartOver? && a.saved)
  }

  /** A new project is modified until it is saved. */
  lemma NewProjectIsModified(budget: nat, doc: Roots, actions: seq<Action>, bytes: Timeline -> nat)
    requires forall i | 0 <= i < |actions| :: !Saves(actions[i])
    ensures EditorInv(NewProject(budget, doc)) && Modified(RunEditor(NewProject(budget, doc), actions, bytes).timeline)
  {
    NewProjectKeepsEditor(budget, doc);
    NeverSaved(NewProject(budget, doc), actions, bytes);
    UnmodifiedIsSaved(NewProject(budget, doc), actions, bytes);
  }

  lemma {:induction false} NeverSaved(e: Editor, actions: seq<Action>, bytes: Timeline -> nat)
    requires EditorInv(e) && e.lastSave.at == None && forall i | 0 <= i < |actions| :: !Saves(actions[i])
    ensures RunEditor(e, actions, bytes).lastSave.at == None
    decreases |actions|
  {
    hide EditorInv;
    if actions != [] {
      ActKeepsEditor(e, actions[0], bytes);
      NeverSaved(Act(e, actions[0], bytes), actions[1..], bytes);
    }
  }
}
