/** The reference an editor user has in mind: one unbounded list of project states with a cursor.
    The evicting, snapshot-sharing history is a window onto that list. */
module StackRefinement {
  import opened Wrappers
  import opened HistoryThreads
  import opened History
  import opened HistorySteps
  import opened HistoryNavigation
  import opened HistoryCompaction
  import opened HistoryRuns
  import opened EditorRuns

  datatype Stacks = Stacks(line: seq<Model>, cursor: nat)

  /** What the reference does: an edit cuts everything after the cursor and goes there; walking
      only moves the cursor. */
  function Push(i: Stacks, m: Model): Stacks
    requires i.cursor < |i.line|
  {
    Stacks(i.line[..i.cursor + 1] + [m], i.cursor + 1)
  }

  ghost function Place(s: Timeline, t: nat): (p: nat)
    requires Inv(s) && t in Visible(s)
    ensures p < |Visible(s)| && Visible(s)[p] == t
  {
    var p :| 0 <= p < |Visible(s)| && Visible(s)[p] == t;
    p
  }

  /** The steps from the cursor to `t`: negative towards the past. */
  ghost function Distance(s: Timeline, t: nat): int
    requires Inv(s) && t in Visible(s)
  {
    Place(s, t) - |UndoList(s)|
  }

  /** The editor shows the part of the reference list from `off` on, with the same cursor. */
  ghost predicate Shows(e: Editor, i: Stacks, off: nat)
    requires Inv(e.timeline)
  {
    var V := Visible(e.timeline);
    && i.cursor == off + |UndoList(e.timeline)|
    && off + |V| <= |i.line|
    && forall j | 0 <= j < |V| :: ModelAt(e.timeline, e.doc.model, V[j]) == i.line[off + j]
  }

  /** The reference moves by as many steps as the editor did. */
  ghost function Walk(i: Stacks, steps: int): Stacks {
    if 0 <= i.cursor + steps < |i.line| then i.(cursor := i.cursor + steps) else i
  }

  lemma TrimmedVisible(c: Timeline, u: Timeline, k: nat, m: nat)
    requires Inv(c) && Inv(u) && u.current == c.current && ListsTrimmed(c, u, k, m)
    ensures k + |Visible(u)| <= |Visible(c)| && Visible(u) == Visible(c)[k..k + |Visible(u)|]
  {
    hide Inv, UndoList, RedoList;
  }

  lemma LossIsShown(e: Editor, u: Timeline, i: Stacks, off: nat, k: nat, m: nat)
    requires EditorInv(e) && Inv(u) && OnlyLost(e.timeline, u) && ListsTrimmed(e.timeline, u, k, m)
    requires Shows(e, i, off)
    ensures Shows(e.(timeline := u), i, off + k)
  {
    hide EdgesInv, MarksInv, Visible, UndoList, RedoList, DeltasCover;
    TrimmedVisible(e.timeline, u, k, m);
    VisibleIsAvailable(u);
    assert forall t <- Available(u) :: ModelAt(u, e.doc.model, t) == ModelAt(e.timeline, e.doc.model, t);
    assert |UndoList(u)| == |UndoList(e.timeline)| - k;
  }

  /** A jump, an Undo or a Redo that succeeds moves the reference cursor by the same distance. */
  lemma JumpIsShown(e: Editor, target: nat, live: Option<Roots>, bytes: Timeline -> nat, i: Stacks, off: nat) returns (off': nat)
    requires EditorInv(e) && Forward(e.timeline.entries) && (live == Some(e.doc) || live == None)
    requires Shows(e, i, off) && Restore(e.timeline, target, live, bytes).Some?
    ensures var f := Adopt(e, Restore(e.timeline, target, live, bytes));
            && Inv(f.timeline) && target in Visible(e.timeline)
            && Shows(f, Walk(i, Distance(e.timeline, target)), off')
  {
    hide EdgesInv, MarksInv, Restore, Capturable, ListsTrimmed, DeltasCover, OnlyLost, Visible, UndoList, RedoList;
    var s := e.timeline;
    TargetIsAvailable(s, target, live, bytes);
    RestoreSucceedsIff(s, target, live, bytes);
    var k, m := RestoreMovesAlongLine(s, target, live, bytes);
    var c := Moved(s, target, live);
    assert c == Moved(s, target, Some(e.doc));
    MovedKeepsEditor(e, target);
    var (u, r) := Restore(s, target, live, bytes).value;
    var p := Plain(c, r.snapshot.model, e.lastSave);
    MovedIsShown(e, c, target, p, i, off);
    LossIsShown(p, u, Walk(i, Distance(s, target)), off, k, m);
    off' := off + k;
    ShowsModelsOnly(p.(timeline := u), Adopt(e, Restore(s, target, live, bytes)), Walk(i, Distance(s, target)), off');
  }

  lemma ShowsModelsOnly(e: Editor, f: Editor, i: Stacks, off: nat)
    requires Inv(e.timeline) && f.timeline == e.timeline && f.doc.model == e.doc.model && Shows(e, i, off)
    ensures Shows(f, i, off)
  {
    hide Inv, Visible;
  }

  lemma MovedIsShown(e: Editor, c: Timeline, target: nat, p: Editor, i: Stacks, off: nat)
    requires EditorInv(e) && Shows(e, i, off) && CanLeave(e.timeline, Some(e.doc)) && target in Visible(e.timeline)
    requires Inv(c) && c == Moved(e.timeline, target, Some(e.doc)) && Visible(c) == Visible(e.timeline)
    requires p.timeline == c
    ensures Shows(p, Walk(i, Distance(e.timeline, target)), off)
  {
    hide EdgesInv, MarksInv, DeltasCover, Capturable, Visible, UndoList, RedoList;
    var s := e.timeline;
    VisibleIsAvailable(s);
    SplitAtCursor(c);
    SplitAtCursor(s);
    SamePlace(Visible(c), Place(s, target), |UndoList(c)|);
    assert forall t <- Available(s) :: t in c.snapshots && c.snapshots[t].model == ModelAt(s, e.doc.model, t);
  }

  /** A committed edit cuts and extends the reference list; at least one step back is shown. */
  lemma EditIsShown(e: Editor, title: string, kind: OperationKind, next: Roots, bytes: Timeline -> nat, i: Stacks, off: nat) returns (off': nat)
    requires EditorInv(e) && Forward(e.timeline.entries) && Shows(e, i, off)
    requires Begin(e.timeline, title, e.doc, kind).Some?
    ensures var f := Act(e, Edit(title, kind, next), bytes);
            && Inv(f.timeline) && i.cursor < |i.line|
            && Shows(f, Push(i, next.model), off')
            && UndoList(f.timeline) != []
  {
    hide Inv, Begin, Commit, Capturable, DeltasCover, UndoList, RedoList;
    EditorHasInv(e);
    OpenedKeepsEditor(e, title, kind);
    var b := Begin(e.timeline, title, e.doc, kind).value;
    BeginKeepsLists(e.timeline, title, e.doc, kind);
    BeginKeepsModels(e, title, kind);
    var k := CommitExtendsUndo(b, next, bytes);
    assert Commit(b, next, bytes).Some? by { CommitSucceeds(b, next, bytes); }
    var f := Act(e, Edit(title, kind, next), bytes);
    var s, u := e.timeline, f.timeline;
    assert u == Commit(b, next, bytes).value;
    VisibleIsAvailable(u);
    off' := off + k;
    var U, V := UndoList(s), Visible(u);
    assert V == U[k..] + [s.current] + [u.current];
    assert Visible(s)[|U|] == s.current;
    forall j | 0 <= j < |V| ensures ModelAt(u, next.model, V[j]) == Push(i, next.model).line[off' + j] {
      if j <= |U| - k {
        assert V[j] == Visible(s)[k + j];
        assert V[j] in u.snapshots by { ListsAreArchived(u); assert V[j] == UndoList(u)[j]; }
        assert ModelAt(u, next.model, V[j]) == ModelAt(b, e.doc.model, V[j]) == ModelAt(s, e.doc.model, V[j]);
      }
    }
  }

  lemma CommitSucceeds(s: Timeline, succ: Roots, bytes: Timeline -> nat)
    requires s.operation.Some?
    ensures Commit(s, succ, bytes).Some?
  {
  }

  lemma BeginKeepsLists(s: Timeline, title: string, pred: Roots, kind: OperationKind)
    requires Inv(s) && s.operation.None? && Begin(s, title, pred, kind).Some?
    ensures var b := Begin(s, title, pred, kind).value;
            Inv(b) && UndoList(b) == UndoList(s) && b.current == s.current
  {
    hide EdgesInv, MarksInv, Capturable, SameShape;
    BeginKeepsInv(s, title, pred, kind);
  }

  lemma BeginKeepsModels(e: Editor, title: string, kind: OperationKind)
    requires EditorInv(e) && Begin(e.timeline, title, e.doc, kind).Some?
    ensures var b := Begin(e.timeline, title, e.doc, kind).value;
            forall t <- b.snapshots :: ModelAt(b, e.doc.model, t) == ModelAt(e.timeline, e.doc.model, t)
  {
    hide Inv, DeltasCover, Capturable, SameShape;
  }

  // ---------- whole runs ----------

  /** The states of a list but for those at a timestamp in `gone`. */
  ghost function Thin(line: seq<Model>, ts: seq<nat>, gone: set<nat>): (r: seq<Model>)
    requires |line| == |ts|
    ensures |r| == |Without(ts, gone)|
  {
    if ts == [] then []
    else (if ts[0] in gone then [] else [line[0]]) + Thin(line[1..], ts[1..], gone)
  }

  /** Merging strokes forgets the states between them; the cursor stays at its state. */
  ghost function Thinned(i: Stacks, s: Timeline): (j: Stacks)
    requires Inv(s) && s.session.Some? && i.cursor < |i.line|
    ensures j.cursor < |j.line| && j.line[j.cursor] == i.line[i.cursor]
  {
    var U := UndoList(s);
    if i.cursor < |U| then i
    else
      var off := i.cursor - |U|;
      var kept := Thin(i.line[off..i.cursor], U, Inside(s));
      Stacks(i.line[..off] + kept + i.line[i.cursor..], off + |kept|)
  }

  /** Giving up the redo branch forgets everything after the cursor. */
  function Cut(i: Stacks): Stacks
    requires i.cursor < |i.line|
  {
    Stacks(i.line[..i.cursor + 1], i.cursor)
  }

  /** The reference's answer to an action, given whether the editor accepted it. */
  ghost function Follow(i: Stacks, e: Editor, a: Action, bytes: Timeline -> nat): Stacks
    requires Inv(e.timeline) && Forward(e.timeline.entries) && i.cursor < |i.line|
  {
    var s := e.timeline;
    match a
    case Edit(title, kind, next) => if Begin(s, title, e.doc, kind).Some? then Push(i, next.model) else i
    case UndoKey => if Undo(s, e.doc, bytes).Some? then Walk(i, -1) else i
    case RedoKey => if Redo(s, bytes).Some? then Walk(i, 1) else i
    case JumpTo(t) => if Restore(s, t, Some(e.doc), bytes).Some? && t in Visible(s) then Walk(i, Distance(s, t)) else i
    case JumpToEntry(id, after) =>
      (match EntryById(s.entries, id)
       case None => i
       case Some(entry) =>
         var t := if after then entry.after else entry.before;
         if Restore(s, t, Some(e.doc), bytes).Some? && t in Visible(s) then Walk(i, Distance(s, t)) else i)
    case MergeStrokes(_) => if s.session.Some? then Thinned(i, s) else i
    case ClosePainter(_) =>
      if s.session.None? then i
      else if s.session.value.effective then Cut(Thinned(i, s))
      else Thinned(i, s)
    case StartOver(project, _) => Stacks([project.model], 0)
    case _ => i
  }

  lemma NeighbourDistance(s: Timeline)
    requires Inv(s)
    ensures UndoList(s) != [] ==> UndoList(s)[|UndoList(s)| - 1] in Visible(s) && Distance(s, UndoList(s)[|UndoList(s)| - 1]) == -1
    ensures RedoList(s) != [] ==> RedoList(s)[0] in Visible(s) && Distance(s, RedoList(s)[0]) == 1
  {
    hide EdgesInv, MarksInv, Visible, UndoList, RedoList;
    SplitAtCursor(s);
    var V, U := Visible(s), UndoList(s);
    if U != [] {
      assert V[|U| - 1] == U[|U| - 1];
      SamePlace(V, Place(s, U[|U| - 1]), |U| - 1);
    }
    if RedoList(s) != [] {
      assert V[|U| + 1] == RedoList(s)[0];
      SamePlace(V, Place(s, RedoList(s)[0]), |U| + 1);
    }
  }

  lemma CursorIsShown(e: Editor, i: Stacks, off: nat)
    requires Inv(e.timeline) && Shows(e, i, off)
    ensures i.cursor < |i.line| && i.line[i.cursor] == ModelAt(e.timeline, e.doc.model, e.timeline.current)
  {
    hide Inv, UndoList, RedoList;
    assert Visible(e.timeline)[|UndoList(e.timeline)|] == e.timeline.current;
  }

  lemma UndoRedoAreShown(e: Editor, a: Action, bytes: Timeline -> nat, i: Stacks, off: nat) returns (off': nat)
    requires EditorInv(e) && Shows(e, i, off) && Forward(e.timeline.entries) && i.cursor < |i.line|
    requires a.UndoKey? || a.RedoKey?
    ensures Inv(Act(e, a, bytes).timeline) && Shows(Act(e, a, bytes), Follow(i, e, a, bytes), off')
  {
    hide EditorInv, Inv, Shows, Restore, Visible, Undo, Redo;
    EditorHasInv(e);
    NeighbourDistance(e.timeline);
    UndoIsRestore(e.timeline, e.doc, bytes);
    RedoIsRestore(e.timeline, bytes);
    off' := off;
    if a.UndoKey? && Undo(e.timeline, e.doc, bytes).Some? {
      off' := JumpIsShown(e, UndoList(e.timeline)[|UndoList(e.timeline)| - 1], Some(e.doc), bytes, i, off);
    }
    if a.RedoKey? && Redo(e.timeline, bytes).Some? {
      off' := JumpIsShown(e, RedoList(e.timeline)[0], None, bytes, i, off);
    }
  }

  lemma QuietIsShown(e: Editor, a: Action, bytes: Timeline -> nat, i: Stacks, off: nat) returns (off': nat)
    requires EditorInv(e) && Shows(e, i, off) && Forward(e.timeline.entries)
    requires a.SelectOnly? || a.Save? || a.Remember? || a.OpenPainter?
    ensures Inv(Act(e, a, bytes).timeline) && Shows(Act(e, a, bytes), i, off')
  {
    hide EdgesInv, MarksInv, Enforce, DeltasCover, Past, Future, ListsTrimmed, OnlyLost;
    ActKeepsEditor(e, a, bytes);
    off' := off;
    if a.Remember? {
      var g := e.(timeline := e.timeline.(budget := a.budget));
      assert Inv(g.timeline) by { BudgetIsFree(e.timeline, a.budget); }
      MarksKeepEditor(e.timeline, g.timeline, e.doc.model, e.lastSave);
      ContextIsFree(Plain(g.timeline, e.doc.model, e.lastSave), g);
      var k, m := EnforceTrims(g.timeline, bytes, false);
      LossIsShown(g, Enforce(g.timeline, bytes, false), i, off, k, m);
      off' := off + k;
    }
  }

  lemma BudgetIsFree(s: Timeline, budget: nat)
    requires Inv(s)
    ensures Inv(s.(budget := budget))
  {
    hide Threaded;
  }

  lemma {:induction false} ThinShows(line: seq<Model>, ts: seq<nat>, gone: set<nat>, s: Timeline, doc: Model)
    requires |line| == |ts| && forall j | 0 <= j < |ts| :: ModelAt(s, doc, ts[j]) == line[j]
    ensures forall j | 0 <= j < |Without(ts, gone)| :: ModelAt(s, doc, Without(ts, gone)[j]) == Thin(line, ts, gone)[j]
  {
    hide ModelAt;
    if ts != [] {
      ThinShows(line[1..], ts[1..], gone, s, doc);
    }
  }

  lemma KeptModels(s: Timeline, u: Timeline, doc: Model)
    requires Inv(s) && Inv(u) && KeepsArchives(s, u)
    ensures u.current == s.current && forall t <- Visible(u) :: ModelAt(u, doc, t) == ModelAt(s, doc, t)
  {
    hide Inv, Visible;
    VisibleIsAvailable(u);
  }

  /** A history whose undo list has been thinned, whose oldest steps may be lost and whose redo
      list is kept or emptied shows the thinned reference list. */
  lemma ThinnedIsShown(e: Editor, u: Timeline, i: Stacks, off: nat, k: nat, emptied: bool)
    requires Inv(e.timeline) && Inv(u) && e.timeline.session.Some? && KeepsArchives(e.timeline, u)
    requires Shows(e, i, off) && i.cursor < |i.line|
    requires var kept := Without(UndoList(e.timeline), Inside(e.timeline)); k <= |kept| && UndoList(u) == kept[k..]
    requires RedoList(u) == if emptied then [] else RedoList(e.timeline)
    ensures Shows(e.(timeline := u), if emptied then Cut(Thinned(i, e.timeline)) else Thinned(i, e.timeline), off + k)
  {
    hide Inv, UndoList, RedoList, Inside, Without, Thin, ModelAt, KeepsArchives;
    var s, doc := e.timeline, e.doc.model;
    var U, R, V, W := UndoList(s), RedoList(s), Visible(s), Visible(u);
    var kept := Without(U, Inside(s));
    var line := i.line[off..i.cursor];
    assert forall j | 0 <= j < |U| :: V[j] == U[j] && i.line[off + j] == line[j];
    ThinShows(line, U, Inside(s), s, doc);
    KeptModels(s, u, doc);
    var t := Thinned(i, s);
    assert t.line == i.line[..off] + Thin(line, U, Inside(s)) + i.line[i.cursor..] && t.cursor == off + |kept|;
    forall j | 0 <= j < |W| ensures ModelAt(u, doc, W[j]) == t.line[off + k + j] {
      assert ModelAt(u, doc, W[j]) == ModelAt(s, doc, W[j]) by { assert W[j] in W; }
      if j < |kept| - k {
        assert W[j] == kept[k + j];
      } else {
        assert W[j] == V[|U| + (j - (|kept| - k))];
      }
    }
  }

  /** Merging strokes and closing the painter. */
  lemma MergeIsShown(e: Editor, a: Action, bytes: Timeline -> nat, i: Stacks, off: nat) returns (off': nat)
    requires EditorInv(e) && Shows(e, i, off) && Forward(e.timeline.entries) && i.cursor < |i.line|
    requires a.MergeStrokes? || a.ClosePainter?
    ensures Inv(Act(e, a, bytes).timeline) && Shows(Act(e, a, bytes), Follow(i, e, a, bytes), off')
  {
    hide EdgesInv, MarksInv, DeltasCover, Compact, Close, Shows, UndoList, RedoList, Inside, Thinned, Cut, KeepsArchives;
    var s := e.timeline;
    off' := off;
    if s.session.None? {
      if a.MergeStrokes? { NoSession(s, a.mergeTitle, bytes); } else { NoSession(s, a.closeTitle, bytes); }
    } else if a.MergeStrokes? {
      assert Compact(s, SessionId(s), a.mergeTitle, bytes).Some? by { SessionCallsSucceed(s, SessionId(s), a.mergeTitle, bytes); }
      var k := CompactHidesInside(s, SessionId(s), a.mergeTitle, bytes);
      ThinnedIsShown(e, Compact(s, SessionId(s), a.mergeTitle, bytes).value, i, off, k, false);
      off' := off + k;
    } else {
      assert Close(s, SessionId(s), a.closeTitle, bytes).Some? by { SessionCallsSucceed(s, SessionId(s), a.closeTitle, bytes); }
      var k := CloseHidesInside(s, SessionId(s), a.closeTitle, bytes);
      ThinnedIsShown(e, Close(s, SessionId(s), a.closeTitle, bytes).value, i, off, k, s.session.value.effective);
      off' := off + k;
    }
  }

  lemma RebindIsShown(e: Editor, rewrite: Bytes -> Option<Bytes>, cursor: Option<Bytes>, bytes: Timeline -> nat, i: Stacks, off: nat)
    requires EditorInv(e) && Shows(e, i, off) && Forward(e.timeline.entries)
    ensures Inv(Act(e, Rebind(rewrite, cursor), bytes).timeline) && Shows(Act(e, Rebind(rewrite, cursor), bytes), i, off)
  {
    hide EdgesInv, MarksInv, DeltasCover, RewriteContexts, Past, Future;
    var s := e.timeline;
    if RewriteContexts(s, rewrite, cursor).Some? {
      RewriteStep(s, rewrite, cursor);
      var u := RewriteContexts(s, rewrite, cursor).value;
      assert forall t {:trigger ModelAt(u, e.doc.model, t)} :: ModelAt(u, e.doc.model, t) == ModelAt(s, e.doc.model, t);
      hide ModelAt;
    }
  }

  lemma StartOverShows(s: Timeline, project: Roots, saved: bool)
    ensures var f := Fresh(Clear(s), project, saved);
            Inv(f.timeline) && Shows(f, Stacks([project.model], 0), 0)
  {
  }

  lemma ActIsShown(e: Editor, a: Action, bytes: Timeline -> nat, i: Stacks, off: nat) returns (off': nat)
    requires EditorInv(e) && Inv(e.timeline) && Shows(e, i, off)
    ensures Forward(e.timeline.entries) && EditorInv(Act(e, a, bytes)) && i.cursor < |i.line|
    ensures Inv(Act(e, a, bytes).timeline) && Shows(Act(e, a, bytes), Follow(i, e, a, bytes), off')
  {
    hide EditorInv, Inv, Shows, Restore, Begin, Commit, Abort, Undo, Redo, Visible, Clear, RewriteContexts;
    EdgesPointForward(e.timeline);
    ActKeepsEditor(e, a, bytes);
    CursorIsShown(e, i, off);
    off' := off;
    match a {
      case Edit(title, kind, next) =>
        if Begin(e.timeline, title, e.doc, kind).Some? { off' := EditIsShown(e, title, kind, next, bytes, i, off); }
      case Cancel(title, kind) => CancelKeepsEditor(e, title, kind, bytes);
      case UndoKey => off' := UndoRedoAreShown(e, a, bytes, i, off);
      case RedoKey => off' := UndoRedoAreShown(e, a, bytes, i, off);
      case JumpTo(t) =>
        if Restore(e.timeline, t, Some(e.doc), bytes).Some? { off' := JumpIsShown(e, t, Some(e.doc), bytes, i, off); }
      case JumpToEntry(id, after) =>
        if EntryById(e.timeline.entries, id).Some? {
          var entry := EntryById(e.timeline.entries, id).value;
          var t := if after then entry.after else entry.before;
          if Restore(e.timeline, t, Some(e.doc), bytes).Some? { off' := JumpIsShown(e, t, Some(e.doc), bytes, i, off); }
        }
      case MergeStrokes(_) => off' := MergeIsShown(e, a, bytes, i, off);
      case ClosePainter(_) => off' := MergeIsShown(e, a, bytes, i, off);
      case Rebind(rewrite, cursor) => RebindIsShown(e, rewrite, cursor, bytes, i, off);
      case StartOver(project, saved) =>
        StartOverShows(e.timeline, project, saved);
        off' := 0;
      case _ => off' := QuietIsShown(e, a, bytes, i, off);
    }
  }

  /** The reference after a run of the editor. */
  ghost function FollowRun(i: Stacks, e: Editor, actions: seq<Action>, bytes: Timeline -> nat): Stacks
    requires EditorInv(e) && i.cursor < |i.line|
    decreases |actions|
  {
    if actions == [] then i
    else
      ActKeepsEditor(e, actions[0], bytes);
      EditorHasInv(e);
      var j := Follow(i, e, actions[0], bytes);
      if j.cursor < |j.line| then FollowRun(j, Act(e, actions[0], bytes), actions[1..], bytes) else j
  }

  lemma {:induction false} RunIsShown(e: Editor, actions: seq<Action>, bytes: Timeline -> nat, i: Stacks, off: nat) returns (off': nat)
    requires EditorInv(e) && Inv(e.timeline) && Shows(e, i, off) && i.cursor < |i.line|
    ensures var f, j := RunEditor(e, actions, bytes), FollowRun(i, e, actions, bytes);
            && Inv(f.timeline) && Shows(f, j, off') && j.cursor < |j.line| && f.doc.model == j.line[j.cursor]
    decreases |actions|
  {
    hide Inv, Shows, Follow, Act, DeltasCover;
    if actions == [] {
      off' := off;
      CursorIsShown(e, i, off);
    } else {
      hide EditorInv;
      var mid := ActIsShown(e, actions[0], bytes, i, off);
      var f, j := Act(e, actions[0], bytes), Follow(i, e, actions[0], bytes);
      CursorIsShown(f, j, mid);
      off' := RunIsShown(f, actions[1..], bytes, j, mid);
    }
  }

  lemma NewProjectShows(budget: nat, doc: Roots)
    ensures Inv(NewProject(budget, doc).timeline)
    ensures Shows(NewProject(budget, doc), Stacks([doc.model], 0), 0)
  {
    EmptyKeepsInv(budget, 1);
  }

  /** In every run of a new project the document is the state under the reference cursor, and what
      Undo and Redo offer is a stretch of the reference list around it. */
  lemma RunFollowsStacks(budget: nat, doc: Roots, actions: seq<Action>, bytes: Timeline -> nat) returns (off: nat)
    ensures EditorInv(NewProject(budget, doc))
    ensures var e := NewProject(budget, doc);
            var f, j := RunEditor(e, actions, bytes), FollowRun(Stacks([doc.model], 0), e, actions, bytes);
            && Inv(f.timeline) && Shows(f, j, off) && j.cursor < |j.line| && f.doc.model == j.line[j.cursor]
  {
    hide EditorInv, Inv, Shows, NewProject, RunEditor, FollowRun;
    NewProjectKeepsEditor(budget, doc);
    NewProjectShows(budget, doc);
    off := RunIsShown(NewProject(budget, doc), actions, bytes, Stacks([doc.model], 0), 0);
  }
}
