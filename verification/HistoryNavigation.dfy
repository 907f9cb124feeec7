/** Undo, Redo and jumps: which calls succeed, what they return, and that walking about never
    changes the line of steps it walks on. */
module HistoryNavigation {
  import opened Wrappers
  import opened HistoryThreads
  import opened History
  import opened HistorySteps

  /** The cursor can be left: its state is archived already, or the caller hands over a state
      that can be. */
  predicate CanLeave(s: Timeline, live: Option<Roots>) {
    s.current in s.snapshots || (live.Some? && Capturable(live.value.model))
  }

  /** What the timestamp under the cursor stands for: its archive, or else the live state. */
  function AtCursor(s: Timeline, live: Option<Roots>): Snapshot
    requires CanLeave(s, live)
  {
    if s.current in s.snapshots then s.snapshots[s.current] else Snapshot(live.value.model, live.value.context)
  }

  /** The timeline with the cursor archived and moved, before the budget is enforced. */
  function Moved(s: Timeline, target: nat, live: Option<Roots>): Timeline
    requires CanLeave(s, live)
  {
    s.(snapshots := s.snapshots[s.current := AtCursor(s, live)], current := target)
  }

  lemma MovedKeepsInv(s: Timeline, target: nat, live: Option<Roots>)
    requires Inv(s) && s.operation.None? && CanLeave(s, live)
    requires target in Available(s) && !BelowFloor(s, target)
    ensures Inv(Moved(s, target, live))
  {
    hide Threaded, Capturable;
    var u := Moved(s, target, live);
    assert Available(u) == Available(s);
    assert EdgesInv(u) by { hide MarksInv; }
    assert MarksInv(u) by { hide EdgesInv; }
  }

  lemma VisibleIsAvailable(s: Timeline)
    requires Inv(s)
    ensures forall t <- Visible(s) :: t in Available(s)
  {
    hide EdgesInv, MarksInv;
    ListsAreArchived(s);
  }

  /** A jump succeeds exactly when no operation is open, the target is on the line and not below
      the floor, and the cursor can be left. */
  lemma RestoreSucceedsIff(s: Timeline, target: nat, live: Option<Roots>, bytes: Timeline -> nat)
    requires Inv(s)
    ensures Restore(s, target, live, bytes).Some? <==>
              s.operation.None? && !BelowFloor(s, target) && target in Visible(s) && CanLeave(s, live)
  {
    hide Threaded, MarksInv, Capturable, Past, Future, Enforce, Collect;
    CollectIffOnLine(s.entries, s.current, target, s.nextTimestamp);
    VisibleIsAvailable(s);
  }

  /** A successful jump returns what the target stands for, archives what it leaves, and moves
      along a line that stays the same but for what the budget takes from its ends. */
  lemma RestoreMovesAlongLine(s: Timeline, target: nat, live: Option<Roots>, bytes: Timeline -> nat) returns (k: nat, m: nat)
    requires Inv(s) && Restore(s, target, live, bytes).Some?
    ensures CanLeave(s, live)
    ensures var c := Moved(s, target, live);
            var (u, r) := Restore(s, target, live, bytes).value;
            && Inv(c) && Visible(c) == Visible(s)
            && u == Enforce(c, bytes, false)
            && Inv(u) && OnlyLost(c, u) && ListsTrimmed(c, u, k, m)
            && u.current == target && target in u.snapshots
            && r.timestamp == target && target in c.snapshots && r.snapshot == c.snapshots[target]
  {
    hide Threaded, MarksInv, Capturable, Past, Future, Enforce, Collect;
    RestoreSucceedsIff(s, target, live, bytes);
    VisibleIsAvailable(s);
    MovedKeepsInv(s, target, live);
    NavigationKeepsLine(s.entries, s.current, target, s.nextTimestamp);
    var c := Moved(s, target, live);
    assert s.current in s.snapshots ==> s.(current := target) == c;
    k, m := EnforceTrims(c, bytes, false);
  }

  lemma UndoIsRestore(s: Timeline, live: Roots, bytes: Timeline -> nat)
    requires Inv(s)
    ensures Undo(s, live, bytes) ==
              if UndoList(s) == [] then None
              else Restore(s, UndoList(s)[|UndoList(s)| - 1], Some(live), bytes)
  {
    hide Threaded, MarksInv, Capturable, Enforce;
  }

  lemma RedoIsRestore(s: Timeline, bytes: Timeline -> nat)
    requires Inv(s)
    ensures Redo(s, bytes) == if RedoList(s) == [] then None else Restore(s, RedoList(s)[0], None, bytes)
  {
    hide MarksInv, Enforce;
  }

  /** What the two buttons show. */
  predicate CanUndo(s: Timeline) {
    match UndoEntry(s.entries, s.current)
    case None => false
    case Some(e) => !BelowFloor(s, e.before) && e.before in s.snapshots
  }

  predicate CanRedo(s: Timeline) {
    match RedoEntry(s.entries, s.current)
    case None => false
    case Some(e) => e.after in s.snapshots
  }

  /** Outside an operation the buttons tell the truth: Redo works exactly when it is offered, and
      Undo exactly when it is offered and the live state can be archived. */
  lemma ButtonsTellTheTruth(s: Timeline, live: Roots, bytes: Timeline -> nat)
    requires Inv(s) && s.operation.None?
    ensures Undo(s, live, bytes).Some? <==> CanUndo(s) && CanLeave(s, Some(live))
    ensures Redo(s, bytes).Some? <==> CanRedo(s)
    ensures CanRedo(s) <==> RedoList(s) != []
    ensures CanUndo(s) ==> UndoList(s) != []
  {
    hide Threaded, MarksInv, Capturable, Restore;
    UndoIsRestore(s, live, bytes);
    RedoIsRestore(s, bytes);
    ListsAreArchived(s);
    var U, R := UndoList(s), RedoList(s);
    if U != [] {
      RestoreSucceedsIff(s, U[|U| - 1], Some(live), bytes);
      assert U[|U| - 1] in U;
    }
    if R != [] {
      RestoreSucceedsIff(s, R[0], None, bytes);
      assert R[0] in R;
      FloorIsBehind(s);
    }
  }

  /** What the buttons show at any time, an open operation or not: Redo if there is a redo step, and
      Undo if there is an undo step that the floor does not bar. */
  lemma ButtonsShowSteps(s: Timeline)
    requires Inv(s)
    ensures CanRedo(s) <==> RedoList(s) != []
    ensures CanUndo(s) <==> UndoList(s) != [] && (s.floor == None || s.floor.value <= UndoList(s)[|UndoList(s)| - 1])
  {
    hide Threaded, MarksInv;
    ListsAreArchived(s);
    var U, R := UndoList(s), RedoList(s);
    assert U != [] ==> U[|U| - 1] in U;
    assert R != [] ==> R[0] in R;
  }

  lemma FloorIsBehind(s: Timeline)
    requires Inv(s)
    ensures forall t | t >= s.current :: !BelowFloor(s, t)
  {
    hide EdgesInv;
  }

  /** Undo steps exactly one place back, and one Redo then brings back precisely the state that
      was left, on the line it was left on; whatever the budget took in between, a further Undo
      returns the same predecessor again. */
  lemma UndoThenRedo(s: Timeline, live: Roots, bytes: Timeline -> nat)
    requires Inv(s) && Undo(s, live, bytes).Some?
    ensures CanLeave(s, Some(live)) && UndoList(s) != []
    ensures var p := UndoList(s)[|UndoList(s)| - 1];
            var (u, r) := Undo(s, live, bytes).value;
            && Inv(u) && u.current == p && p in s.snapshots && r.snapshot == s.snapshots[p]
            && RedoList(u) != [] && RedoList(u)[0] == s.current
            && Redo(u, bytes).Some?
            && var (v, q) := Redo(u, bytes).value;
               && Inv(v) && v.current == s.current && q.snapshot == AtCursor(s, Some(live))
               && UndoList(v) != [] && UndoList(v)[|UndoList(v)| - 1] == p
               && p in v.snapshots && v.snapshots[p] == s.snapshots[p]
  {
    hide EdgesInv, MarksInv, Capturable, Past, Future, Enforce, Collect, Load, UndoEntry, RedoEntry;
    EdgesPointForward(s);
    UndoIsRestore(s, live, bytes);
    ListsAreArchived(s);
    var P := UndoList(s);
    var p := P[|P| - 1];
    assert p in P;
    var u := Undo(s, live, bytes).value.0;
    var k, m := RestoreMovesAlongLine(s, p, Some(live), bytes);
    OneStepBack(s, Moved(s, p, Some(live)), p);
    FloorStillMet(s, u);
    EdgesPointForward(u);
    RedoIsRestore(u, bytes);
    RestoreSucceedsIff(u, s.current, None, bytes);
    assert s.current in RedoList(u);
    var k', m' := RestoreMovesAlongLine(u, s.current, None, bytes);
    ListsAreArchived(u);
    OneStepForward(u, Moved(u, s.current, None), s.current);
    var v := Redo(u, bytes).value.0;
    ListsAreArchived(v);
  }

  lemma EdgesPointForward(s: Timeline)
    requires Inv(s)
    ensures Forward(s.entries)
  {
  }

  lemma FloorStillMet(s: Timeline, u: Timeline)
    requires Inv(s) && u.floor == s.floor
    ensures !BelowFloor(u, s.current)
  {
    hide EdgesInv;
  }

  lemma OneStepBack(s: Timeline, c: Timeline, p: nat)
    requires Inv(s) && Inv(c) && Visible(c) == Visible(s) && c.current == p
    requires UndoList(s) != [] && p == UndoList(s)[|UndoList(s)| - 1]
    ensures UndoList(c) == UndoList(s)[..|UndoList(s)| - 1]
    ensures RedoList(c) == [s.current] + RedoList(s)
  {
    hide EdgesInv, MarksInv, Past, Future, UndoList, RedoList;
    SplitAtCursor(s);
    SplitAtCursor(c);
    var V, i, j := Visible(s), |UndoList(s)| - 1, |UndoList(c)|;
    assert V[i] == p && V[j] == p;
    SamePlace(V, i, j);
    assert UndoList(c) == V[..i] && RedoList(c) == V[i + 1..];
    assert V[i + 1..] == [s.current] + RedoList(s);
  }

  lemma OneStepForward(s: Timeline, c: Timeline, n: nat)
    requires Inv(s) && Inv(c) && Visible(c) == Visible(s) && c.current == n
    requires RedoList(s) != [] && n == RedoList(s)[0]
    ensures UndoList(c) == UndoList(s) + [s.current]
    ensures RedoList(c) == RedoList(s)[1..]
  {
    hide EdgesInv, MarksInv, Past, Future, UndoList, RedoList;
    SplitAtCursor(s);
    SplitAtCursor(c);
    var V, i, j := Visible(s), |UndoList(s)| + 1, |UndoList(c)|;
    assert V[i] == n && V[j] == n;
    SamePlace(V, i, j);
    assert UndoList(c) == V[..i] && RedoList(c) == V[i + 1..];
    assert V[..i] == UndoList(s) + [s.current];
  }

  /** The cursor's place on the line is the length of the undo list, and the line ascends. */
  lemma SplitAtCursor(s: Timeline)
    requires Inv(s)
    ensures var V := Visible(s); var i := |UndoList(s)|;
            && i < |V| && V[i] == s.current && V[..i] == UndoList(s) && V[i + 1..] == RedoList(s)
            && forall a, b | 0 <= a < b < |V| :: V[a] < V[b]
  {
    hide EdgesInv, MarksInv, Past, Future;
    ListsAreArchived(s);
    var V, P, F := Visible(s), UndoList(s), RedoList(s);
    forall a, b | 0 <= a < b < |V| ensures V[a] < V[b] {
      assert a < |P| ==> P[a] in P;
      assert b > |P| ==> F[b - |P| - 1] in F;
    }
  }

  lemma SamePlace(v: seq<nat>, i: nat, j: nat)
    requires forall a, b | 0 <= a < b < |v| :: v[a] < v[b]
    requires i < |v| && j < |v| && v[i] == v[j]
    ensures i == j
  {
  }

  /** An edit can always be undone, however little memory there is: Undo returns the state before
      the edit, with the session roots sampled when the operation began, and Redo then returns the
      state the edit led to. */
  lemma EditUndoRedo(s: Timeline, title: string, pred: Roots, kind: OperationKind, succ: Roots, live: Roots, bytes: Timeline -> nat)
    requires Inv(s) && s.operation.None? && Begin(s, title, pred, kind).Some? && Capturable(live.model)
    ensures var b := Begin(s, title, pred, kind).value;
            && Commit(b, succ, bytes).Some?
            && var u := Commit(b, succ, bytes).value;
               && Inv(u) && Undo(u, live, bytes).Some?
               && var (v, r) := Undo(u, live, bytes).value;
                  && r.timestamp == s.current && r.snapshot.context == pred.context
                  && r.snapshot.model == (if s.current in s.snapshots then s.snapshots[s.current].model else pred.model)
                  && Inv(v) && Redo(v, bytes).Some?
                  && Redo(v, bytes).value.1.snapshot == Snapshot(live.model, live.context)
  {
    hide EdgesInv, MarksInv, Capturable, Commit, Undo, Redo, SameShape, UndoList, RedoList;
    var b := Begin(s, title, pred, kind).value;
    BeginKeepsInv(s, title, pred, kind);
    var k := CommitExtendsUndo(b, succ, bytes);
    assert Commit(b, succ, bytes).Some? by { OuterCommitSucceeds(b, succ, bytes); }
    var u := Commit(b, succ, bytes).value;
    FloorStillMet(b, u);
    EdgesPointForward(u);
    ListsAreArchived(u);
    var U := UndoList(u);
    assert U[|U| - 1] == s.current && s.current in U;
    UndoIsRestore(u, live, bytes);
    RestoreSucceedsIff(u, s.current, Some(live), bytes);
    UndoThenRedo(u, live, bytes);
    var k', m' := RestoreMovesAlongLine(u, s.current, Some(live), bytes);
  }

  lemma OuterCommitSucceeds(s: Timeline, succ: Roots, bytes: Timeline -> nat)
    requires s.operation.Some?
    ensures Commit(s, succ, bytes).Some?
  {
  }

  // ---------- editing sessions ----------

  /** Opening a session forbids Undo at once, keeps the redo list, and uses an id that is not
      handed out next. */
  lemma SessionStartsAtCursor(s: Timeline)
    requires Inv(s) && BeginSession(s).Some?
    ensures var u := BeginSession(s).value;
            && Inv(u) && !CanUndo(u) && UndoList(u) == UndoList(s) && RedoList(u) == RedoList(s)
            && u.session == Some(Session(s.nextSession, s.current, false)) && u.nextSession != s.nextSession
  {
    hide Threaded;
    var u := BeginSession(s).value;
    if UndoEntry(s.entries, s.current).Some? {
      EdgesEndForward(s);
    }
  }

  lemma EdgesEndForward(s: Timeline)
    requires Inv(s)
    ensures forall e <- s.entries :: e.before < e.after
  {
  }

  /** While a session is open, no navigation leads to before its entry. */
  lemma SessionKeepsItsEntry(s: Timeline, target: nat, live: Option<Roots>, bytes: Timeline -> nat)
    requires Inv(s) && s.session.Some? && Forward(s.entries) && Restore(s, target, live, bytes).Some?
    ensures s.session.value.entry <= target
    ensures s.session.value.entry <= s.current
  {
    hide Threaded, Enforce, Collect;
  }

  ghost predicate Records(e: Entry, op: Operation, succ: Roots) {
    && e.title == op.title && e.kind == op.kind && e.session == op.session
    && Covers(e.delta, op.objects, succ.model.objects)
    && e.delta.plateIds == op.plates + succ.scenePlates
    && e.delta == DeltaBetween(op.objects, op.plates, succ.model.objects, succ.scenePlates)
  }

  /** A commit is recorded under its operation: title, kind and session, with a delta that covers
      what changed since the operation began; a commit of the open session makes it effective. */
  lemma CommitIsRecorded(s: Timeline, succ: Roots, bytes: Timeline -> nat)
    requires Inv(s) && s.operation.Some? && s.operation.value.depth == 1
    ensures var op := s.operation.value; var u := Commit(s, succ, bytes).value;
            && UndoEntry(u.entries, u.current).Some?
            && Records(UndoEntry(u.entries, u.current).value, op, succ)
            && UndoEntry(u.entries, u.current).value.id == s.nextEntry && u.nextEntry == s.nextEntry + 1
            && UndoEntry(u.entries, u.current).value.before == s.current
            && (s.session.Some? ==> u.session == Some(s.session.value.(
                  effective := s.session.value.effective || op.session == s.session.value.id)))
  {
    hide Threaded, Past, Future, Enforce, Covers, Changed;
    var op := s.operation.value;
    var closed := s.(operation := None);
    var cut := TruncateRedo(closed);
    var grown := Append(cut, op, succ);
    TruncateKeepsInv(closed);
    TruncateCutsRedo(closed);
    AppendKeepsInv(cut, op, succ);
    AppendExtendsUndo(cut, op, succ);
    var k, m := EnforceTrims(grown, bytes, false);
    NewestEdge(grown, Enforce(grown, bytes, false), NewEntry(cut, op, succ));
  }

  lemma NewestEdge(s: Timeline, u: Timeline, e: Entry)
    requires Inv(s) && Inv(u) && u.current == s.current && UndoList(u) != []
    requires e in s.entries && e.after == s.current && forall f <- u.entries :: f in s.entries
    ensures UndoEntry(u.entries, u.current) == Some(e)
  {
    hide Threaded, MarksInv;
    UniqueUndo(s.entries, s.nextTimestamp, e);
    var f := UndoEntry(u.entries, u.current).value;
    UniqueUndo(s.entries, s.nextTimestamp, f);
  }
}
