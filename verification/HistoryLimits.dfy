/** Two runs from an empty history on which it falls short of what one would expect, each under
    an accounting that charges every archive the same: a listed entry that can never be reached
    again, and a paint run that does not become one step. */
module HistoryLimits {
  import opened Wrappers
  import opened HistoryThreads
  import opened History
  import opened HistorySteps
  import opened HistoryNavigation
  import opened HistoryCompaction
  import opened HistoryPaintRuns
  import opened HistoryRuns
  import opened HistoryIdentities

  function ArchiveCount(s: Timeline): nat {
    |s.snapshots|
  }

  // ---------- a run of edits ----------

  /** The states a user goes through; all of them can be archived. */
  ghost predicate Usable(x: nat -> Roots) {
    forall i: nat :: Capturable(x(i).model)
  }

  function Edge(x: nat -> Roots, i: nat, painting: bool): Entry {
    Entry(i + 1, "edit", i, i + 1,
          DeltaBetween(x(i).model.objects, x(i).scenePlates, x(i + 1).model.objects, x(i + 1).scenePlates),
          if painting then Paint else NonPaint, if painting then 1 else 0)
  }

  function Edges(x: nat -> Roots, n: nat, painting: bool): (es: seq<Entry>)
    ensures |es| == n && forall i | 0 <= i < n :: es[i] == Edge(x, i, painting)
  {
    seq(n, i requires 0 <= i < n => Edge(x, i, painting))
  }

  function Archive(x: nat -> Roots, t: nat): Snapshot {
    Snapshot(x(t).model, x(t).context)
  }

  function Archives(x: nat -> Roots, n: nat): (m: map<nat, Snapshot>)
    ensures (forall t: nat :: t in m <==> t < n) && (forall t <- m :: m[t] == Archive(x, t)) && |m| == n
  {
    if n == 0 then map[]
    else
      var m := Archives(x, n - 1);
      assert m[n - 1 := Archive(x, n - 1)].Keys == m.Keys + {n - 1};
      m[n - 1 := Archive(x, n - 1)]
  }

  /** A new history after `n` edits, made in an editing session or outside. */
  function Edited(x: nat -> Roots, n: nat, painting: bool, budget: nat): Timeline {
    Timeline(budget, n, if painting then Some(0) else None, if painting then Some(Session(1, 0, n > 0)) else None,
             if painting then 2 else 1, n + 1, n + 1, Archives(x, n), Edges(x, n, painting), None, None, false)
  }

  function EditCalls(x: nat -> Roots, n: nat, painting: bool): seq<Call> {
    if n == 0 then (if painting then [BeginEditingSession] else [])
    else EditCalls(x, n - 1, painting)
         + [BeginOperation("edit", x(n - 1), if painting then Paint else NonPaint), CommitOperation(x(n))]
  }

  lemma EdgesThread(x: nat -> Roots, n: nat, painting: bool)
    ensures Threaded(Edges(x, n, painting), n + 1)
  {
    hide DeltaBetween;
  }

  lemma EditedKeepsInv(x: nat -> Roots, n: nat, painting: bool, budget: nat)
    ensures Inv(Edited(x, n, painting, budget))
  {
    hide DeltaBetween, Threaded, Edges, Archives;
    var s := Edited(x, n, painting, budget);
    EdgesThread(x, n, painting);
    assert EdgesInv(s) && MarksInv(s);
  }

  /** An edit at a cursor without redo edges, before the budget is enforced. */
  function Extended(s: Timeline, pred: Roots, kind: OperationKind, succ: Roots): Timeline {
    var sid := if s.session.Some? then s.session.value.id else 0;
    var op := Operation("edit", s.current, 1, None, pred.model.objects, pred.scenePlates, kind, sid);
    Append(s.(snapshots := s.snapshots[s.current := Snapshot(pred.model, pred.context)]), op, succ)
  }

  lemma EditExtends(s: Timeline, pred: Roots, kind: OperationKind, succ: Roots, bytes: Timeline -> nat)
    requires s.operation.None? && forall i | 0 <= i < |s.entries| :: s.entries[i].before != s.current
    requires if s.current in s.snapshots then s.snapshots[s.current] == Snapshot(pred.model, pred.context) else Capturable(pred.model)
    requires bytes(Extended(s, pred, kind, succ)) <= s.budget
    ensures var b := Begin(s, "edit", pred, kind);
            b.Some? && Commit(b.value, succ, bytes) == Some(Extended(s, pred, kind, succ))
  {
    hide DeltaBetween, Capturable, FirstLeaving;
    var b := Begin(s, "edit", pred, kind).value;
    var closed := b.(operation := None);
    assert FirstLeaving(closed.entries, closed.current) == |closed.entries|;
    assert Append(closed, b.operation.value, succ) == Extended(s, pred, kind, succ);
  }

  lemma OneMore(x: nat -> Roots, n: nat, painting: bool)
    ensures Archives(x, n)[n := Archive(x, n)] == Archives(x, n + 1)
    ensures Edges(x, n, painting) + [Edge(x, n, painting)] == Edges(x, n + 1, painting)
  {
    hide Edges, Edge, Archive;
  }

  lemma EditedExtends(x: nat -> Roots, n: nat, painting: bool, budget: nat)
    ensures Extended(Edited(x, n, painting, budget), x(n), if painting then Paint else NonPaint, x(n + 1))
            == Edited(x, n + 1, painting, budget)
  {
    hide DeltaBetween, Edges, Archives;
    OneMore(x, n, painting);
    var s := Edited(x, n, painting, budget);
    assert NewEntry(s, Operation("edit", n, 1, None, x(n).model.objects, x(n).scenePlates, if painting then Paint else NonPaint,
                                 if painting then 1 else 0), x(n + 1)) == Edge(x, n, painting);
  }

  lemma OneEdit(x: nat -> Roots, n: nat, painting: bool, budget: nat)
    requires Usable(x) && n + 1 <= budget
    ensures var s := Edited(x, n, painting, budget);
            var b := Begin(s, "edit", x(n), if painting then Paint else NonPaint);
            b.Some? && Commit(b.value, x(n + 1), ArchiveCount) == Some(Edited(x, n + 1, painting, budget))
  {
    hide DeltaBetween, Capturable, Edges, Archives, Begin, Commit, Extended;
    var s, kind := Edited(x, n, painting, budget), if painting then Paint else NonPaint;
    assert Capturable(x(n).model);
    EditedExtends(x, n, painting, budget);
    EditExtends(s, x(n), kind, x(n + 1), ArchiveCount);
  }

  // ---------- runs, piece by piece ----------

  lemma {:induction false} RunsJoin(s: Timeline, a: seq<Call>, b: seq<Call>, bytes: Timeline -> nat)
    requires Inv(s)
    ensures Inv(Run(s, a, bytes)) && Run(s, a + b, bytes) == Run(Run(s, a, bytes), b, bytes)
    decreases |a|
  {
    hide Inv, Step;
    if a == [] {
      assert a + b == b;
    } else {
      EdgesPointForward(s);
      StepKeeps(s, a[0], bytes);
      RunsJoin(Step(s, a[0], bytes), a[1..], b, bytes);
      assert (a + b)[1..] == a[1..] + b;
    }
  }

  lemma OneCall(s: Timeline, c: Call, bytes: Timeline -> nat)
    requires Inv(s)
    ensures Forward(s.entries) && Inv(Step(s, c, bytes)) && Run(s, [c], bytes) == Step(s, c, bytes)
  {
    hide Inv, Step;
    EdgesPointForward(s);
    StepKeeps(s, c, bytes);
    assert [c][1..] == [];
    assert Run(s, [c], bytes) == Run(Step(s, c, bytes), [c][1..], bytes);
  }

  lemma CallsJoin(s: Timeline, a: seq<Call>, c: Call, bytes: Timeline -> nat)
    requires Inv(s)
    ensures var u := Run(s, a, bytes);
            Inv(u) && Forward(u.entries) && Run(s, a + [c], bytes) == Step(u, c, bytes) && Inv(Step(u, c, bytes))
  {
    hide Inv, Step, Run;
    RunsJoin(s, a, [c], bytes);
    OneCall(Run(s, a, bytes), c, bytes);
  }

  lemma EditCallsRun(s: Timeline, a: seq<Call>, title: string, pred: Roots, kind: OperationKind, succ: Roots, bytes: Timeline -> nat)
    requires Inv(s) && Inv(Run(s, a, bytes))
    requires var b := Begin(Run(s, a, bytes), title, pred, kind); b.Some? && Commit(b.value, succ, bytes).Some?
    ensures Run(s, a + [BeginOperation(title, pred, kind), CommitOperation(succ)], bytes)
            == Commit(Begin(Run(s, a, bytes), title, pred, kind).value, succ, bytes).value
  {
    hide Inv, Run, Begin, Commit;
    var b, c := BeginOperation(title, pred, kind), CommitOperation(succ);
    CallsJoin(s, a, b, bytes);
    CallsJoin(s, a + [b], c, bytes);
    assert a + [b] + [c] == a + [b, c];
  }

  lemma {:induction false} EditsAreReached(x: nat -> Roots, n: nat, painting: bool, budget: nat)
    requires Usable(x) && n <= budget
    ensures Inv(Empty(budget, 1)) && Run(Empty(budget, 1), EditCalls(x, n, painting), ArchiveCount) == Edited(x, n, painting, budget)
  {
    hide Inv, Begin, Commit, Run, Edited, Usable;
    EmptyKeepsInv(budget, 1);
    if n == 0 {
      NothingEdited(x, painting, budget);
    } else {
      EditsAreReached(x, n - 1, painting, budget);
      EditedKeepsInv(x, n - 1, painting, budget);
      OneEdit(x, n - 1, painting, budget);
      EditCallsRun(Empty(budget, 1), EditCalls(x, n - 1, painting), "edit", x(n - 1),
                   if painting then Paint else NonPaint, x(n), ArchiveCount);
    }
  }

  lemma NothingEdited(x: nat -> Roots, painting: bool, budget: nat)
    ensures Inv(Empty(budget, 1)) && Run(Empty(budget, 1), EditCalls(x, 0, painting), ArchiveCount) == Edited(x, 0, painting, budget)
  {
    EmptyKeepsInv(budget, 1);
    var s := Empty(budget, 1);
    assert Edges(x, 0, painting) == [];
    if painting {
      OneCall(s, BeginEditingSession, ArchiveCount);
    }
  }

  // ---------- a jump back over the budget ----------

  lemma {:induction false} WalkBack(x: nat -> Roots, n: nat, painting: bool, from: nat, to: nat)
    requires to <= from <= n
    ensures Forward(Edges(x, n, painting)) && Collect(Edges(x, n, painting), from, to).Some?
    decreases from
  {
    hide Edges, Threaded, DeltaBetween;
    EdgesThread(x, n, painting);
    ThreadsPointForward(Edges(x, n, painting), n + 1);
    if to < from {
      var e := Edges(x, n, painting)[from - 1];
      assert e in Edges(x, n, painting);
      UniqueUndo(Edges(x, n, painting), n + 1, e);
      WalkBack(x, n, painting, from - 1, to);
    }
  }

  /** The history after `n` edits and a jump back to `t`, before the budget is enforced. */
  function Back(x: nat -> Roots, n: nat, t: nat, painting: bool): Timeline {
    Edited(x, n, painting, n).(snapshots := Archives(x, n + 1), current := t)
  }

  lemma BackKeepsInv(x: nat -> Roots, n: nat, t: nat, painting: bool)
    requires t <= n
    ensures Inv(Back(x, n, t, painting))
  {
    hide DeltaBetween, Threaded, Edges, Archives;
    var s := Back(x, n, t, painting);
    EdgesThread(x, n, painting);
    assert EdgesInv(s) && MarksInv(s);
  }

  /** With room for `n` archives, the jump back takes the first archive after the next one. */
  lemma JumpTakesNextButOne(x: nat -> Roots, n: nat, t: nat, painting: bool)
    requires Usable(x) && t <= 1 && t + 2 <= n
    ensures var s := Edited(x, n, painting, n);
            && Forward(s.entries)
            && Restore(s, t, Some(x(n)), ArchiveCount).Some?
            && Restore(s, t, Some(x(n)), ArchiveCount).value.0 == Evict(Back(x, n, t, painting), t + 2)
            && Evictable(Back(x, n, t, painting), false, t + 2)
  {
    hide DeltaBetween, Capturable, Edges, Archives, Evict, Collect, Forward, Evictable, Enforce, Archive;
    var s, c := Edited(x, n, painting, n), Back(x, n, t, painting);
    WalkBack(x, n, painting, n, t);
    assert Capturable(x(n).model);
    ArchivedAndMoved(x, n, t, painting);
    FirstCandidate(x, n, t, painting);
    EvictOne(c, t + 2);
  }

  lemma ArchivedAndMoved(x: nat -> Roots, n: nat, t: nat, painting: bool)
    ensures var s := Edited(x, n, painting, n);
            s.(snapshots := s.snapshots[n := Snapshot(x(n).model, x(n).context)]).(current := t) == Back(x, n, t, painting)
  {
    OneMore(x, n, painting);
    hide Edges, Archives;
  }

  lemma EvictOne(c: Timeline, t: nat)
    requires t in c.snapshots && |c.snapshots| == c.budget + 1 && Candidate(c, false, 0) == Some(t)
    ensures Enforce(c, ArchiveCount, false) == Evict(c, t)
  {
    hide Evictable, Candidate;
    EvictShrinks(c, false, t);
    assert Evict(c, t).snapshots.Keys == c.snapshots.Keys - {t};
    assert ArchiveCount(Evict(c, t)) <= Evict(c, t).budget;
  }

  lemma FirstCandidate(x: nat -> Roots, n: nat, t: nat, painting: bool)
    requires t <= 1 && t + 2 <= n
    ensures var c := Back(x, n, t, painting); Candidate(c, false, 0) == Some(t + 2) && Evictable(c, false, t + 2)
  {
    hide Edges, Archives, Protected, Evictable, Candidate;
    var c := Back(x, n, t, painting);
    ProtectedAt(x, n, t, painting);
    EvictableAfter(c, t);
    CandidateIsFirst(c, 0, t + 2);
  }

  lemma EdgesAround(x: nat -> Roots, n: nat, t: nat, painting: bool)
    requires t < n
    ensures RedoEntry(Edges(x, n, painting), t) == Some(Edge(x, t, painting))
    ensures UndoEntry(Edges(x, n, painting), t) == if t > 0 then Some(Edge(x, t - 1, painting)) else None
  {
    hide Edges, Threaded, UndoEntry, RedoEntry, DeltaBetween;
    var es := Edges(x, n, painting);
    EdgesThread(x, n, painting);
    assert es[t] in es;
    UniqueRedo(es, n + 1, es[t]);
    if t > 0 {
      assert es[t - 1] in es;
      UniqueUndo(es, n + 1, es[t - 1]);
    } else if UndoEntry(es, 0).Some? {
      EdgeBounds(es, n + 1, UndoEntry(es, 0).value);
    }
  }

  lemma ProtectedAt(x: nat -> Roots, n: nat, t: nat, painting: bool)
    requires t <= 1 && t + 2 <= n
    ensures Protected(Back(x, n, t, painting)) == (if t > 0 then {t - 1} else {}) + {t, t + 1}
  {
    hide Edges, Archives, DeltaBetween, UndoEntry, RedoEntry;
    EdgesAround(x, n, t, painting);
  }

  lemma EvictableAfter(c: Timeline, t: nat)
    requires t <= 1 && t + 2 in c.snapshots && Protected(c) == (if t > 0 then {t - 1} else {}) + {t, t + 1}
    ensures Evictable(c, false, t + 2) && forall i: nat | i < t + 2 :: !Evictable(c, false, i)
  {
  }

  lemma {:induction false} CandidateIsFirst(c: Timeline, from: nat, t: nat)
    requires from <= t < c.nextTimestamp && Evictable(c, false, t) && forall i | from <= i < t :: !Evictable(c, false, i)
    ensures Candidate(c, false, from) == Some(t)
    decreases t - from
  {
    hide Evictable;
    if from < t {
      CandidateIsFirst(c, from + 1, t);
    }
  }

  // ---------- an entry out of reach ----------

  function OrphaningCalls(x: nat -> Roots): seq<Call> {
    EditCalls(x, 4, false) + [RestoreCall(0, Some(x(4)))]
  }

  /** Four edits and a jump back to the start, with room for four archives: the budget takes the
      second of the four redo steps. The last edit stays listed with both its archives, but no
      calls whatever, short of starting over, make a jump to its end succeed. */
  lemma EvictionLeavesOrphans(x: nat -> Roots, later: seq<Call>, live: Option<Roots>, bytes: Timeline -> nat)
    requires Usable(x) && forall i | 0 <= i < |later| :: !later[i].ClearCall?
    ensures Inv(Empty(4, 1))
    ensures var s := Run(Empty(4, 1), OrphaningCalls(x), ArchiveCount);
            && Inv(s) && Edge(x, 3, false) in s.entries && 3 in s.snapshots && 4 in s.snapshots
            && var u := Run(s, later, bytes);
               Inv(u) && Forward(u.entries) && Restore(u, 4, live, bytes) == None
  {
    hide Inv, Run, EditCalls, Visible, Restore;
    OrphansAreReached(x);
    OrphanIsListed(x);
    OffLineForGood(Evict(Back(x, 4, 0, false), 2), later, 4, live, bytes);
  }

  lemma OrphansAreReached(x: nat -> Roots)
    requires Usable(x)
    ensures Inv(Empty(4, 1)) && Run(Empty(4, 1), OrphaningCalls(x), ArchiveCount) == Evict(Back(x, 4, 0, false), 2)
  {
    hide Inv, Run, EditCalls, Restore, Edited, Back, Evict, Usable;
    EmptyKeepsInv(4, 1);
    EditsAreReached(x, 4, false, 4);
    CallsJoin(Empty(4, 1), EditCalls(x, 4, false), RestoreCall(0, Some(x(4))), ArchiveCount);
    JumpTakesNextButOne(x, 4, 0, false);
  }

  lemma OrphanContents(x: nat -> Roots)
    ensures var c := Back(x, 4, 0, false); var u := Evict(c, 2);
            && u == c.(snapshots := c.snapshots - {2}, entries := u.entries)
            && LosesTimestamp(c.entries, u.entries, 2) && Inv(u)
  {
    hide Inv, Edges, Archives, DeltaBetween, Evictable, Candidate;
    BackKeepsInv(x, 4, 0, false);
    FirstCandidate(x, 4, 0, false);
    EvictKeepsInv(Back(x, 4, 0, false), false, 2);
  }

  lemma OrphanIsListed(x: nat -> Roots)
    ensures var u := Evict(Back(x, 4, 0, false), 2);
            && Inv(u) && Edge(x, 3, false) in u.entries && 3 in u.snapshots && 4 in u.snapshots && OffLine(u, 4)
  {
    hide Inv, Edges, Archives, Evict, Visible, DeltaBetween;
    OrphanContents(x);
    var es, u := Edges(x, 4, false), Evict(Back(x, 4, 0, false), 2);
    assert es[3] in es && es[0] in es;
    forall e | e in u.entries ensures e.before != 1 {
      var i :| 0 <= i < 4 && es[i] == e;
    }
    LineEndsAtGap(u, es[0]);
  }

  lemma LineEndsAtGap(u: Timeline, e: Entry)
    requires Inv(u) && u.current == 0 && e in u.entries && e.before == 0 && e.after == 1 && forall f <- u.entries :: f.before != 1
    ensures 4 !in Visible(u)
  {
    hide Threaded, MarksInv;
    UniqueRedo(u.entries, u.nextTimestamp, e);
    EdgesPointForward(u);
    if UndoEntry(u.entries, 0).Some? {
      EdgeBounds(u.entries, u.nextTimestamp, UndoEntry(u.entries, 0).value);
    }
    assert RedoEntry(u.entries, 1) == None;
    assert UndoList(u) == [];
    assert Future(u.entries, 1, u.nextTimestamp) == [];
    assert RedoList(u) == [1];
  }

  // ---------- a paint run in two pieces ----------

  /** Five strokes and a jump back behind the first, with room for five archives. */
  function WithGap(x: nat -> Roots): Timeline {
    Evict(Back(x, 5, 1, true), 3)
  }

  /** The redo step and the sixth stroke. */
  function SixthStroke(x: nat -> Roots): Timeline {
    Extended(WithGap(x).(current := 2), x(2), Paint, x(6))
  }

  function SplittingCalls(x: nat -> Roots): seq<Call> {
    EditCalls(x, 5, true) + [RestoreCall(1, Some(x(5)))] + [RedoCall] + [BeginOperation("edit", x(2), Paint), CommitOperation(x(6))]
  }

  lemma CursorMoves(s: Timeline, t: nat)
    requires Inv(s) && s.operation.None? && s.current in s.snapshots && t in s.snapshots && !BelowFloor(s, t)
    ensures Inv(s.(current := t))
  {
    MovedKeepsInv(s, t, None);
    assert Moved(s, t, None) == s.(current := t) by { hide Inv; }
  }

  lemma GapContents(x: nat -> Roots)
    ensures var c := Back(x, 5, 1, true); var g := WithGap(x);
            && g == c.(snapshots := c.snapshots - {3}, entries := g.entries)
            && LosesTimestamp(c.entries, g.entries, 3) && Inv(g)
  {
    hide Inv, Edges, Archives, DeltaBetween, Evictable, Candidate;
    BackKeepsInv(x, 5, 1, true);
    FirstCandidate(x, 5, 1, true);
    EvictKeepsInv(Back(x, 5, 1, true), false, 3);
  }

  lemma GapEdges(x: nat -> Roots)
    ensures var g := WithGap(x);
            Edge(x, 1, true) in g.entries && Edge(x, 4, true) in g.entries && forall e <- g.entries :: e.before != 2
  {
    hide Inv, Archives, Evict, WithGap, Edges;
    GapContents(x);
    var es, g := Edges(x, 5, true), WithGap(x);
    assert es[1] in es && es[4] in es;
    forall e | e in g.entries ensures e.before != 2 {
      var i :| 0 <= i < 5 && es[i] == e;
    }
  }

  lemma GapIsThere(x: nat -> Roots)
    ensures var g := WithGap(x);
            && Inv(g) && Inv(g.(current := 2)) && g.current == 1 && g.budget == |g.snapshots| == 5 && g.nextTimestamp == 6
            && g.session == Some(Session(1, 0, true)) && g.floor == Some(0) && g.operation.None?
            && 1 in g.snapshots && 2 in g.snapshots && g.snapshots[2] == Archive(x, 2)
            && Edge(x, 1, true) in g.entries && Edge(x, 4, true) in g.entries && forall e <- g.entries :: e.before != 2
  {
    hide Inv, Edges, Archives, DeltaBetween, WithGap;
    GapContents(x);
    GapEdges(x);
    OneLess(Back(x, 5, 1, true).snapshots, WithGap(x).snapshots, 3);
    CursorMoves(WithGap(x), 2);
  }

  lemma OneLess(m: map<nat, Snapshot>, r: map<nat, Snapshot>, t: nat)
    requires t in m && r == m - {t}
    ensures |r| == |m| - 1
  {
    assert r.Keys == m.Keys - {t};
  }

  lemma RedoOverGap(x: nat -> Roots)
    ensures var g := WithGap(x);
            Inv(g) && Forward(g.entries) && Redo(g, ArchiveCount).Some? && Redo(g, ArchiveCount).value.0 == g.(current := 2)
  {
    hide Inv, WithGap, Threaded, DeltaBetween;
    GapIsThere(x);
    var g, e := WithGap(x), Edge(x, 1, true);
    EdgesPointForward(g);
    IsThreaded(g);
    UniqueRedo(g.entries, g.nextTimestamp, e);
    assert g.current in Available(g) && 2 in Available(g);
    assert Collect(g.entries, 2, 2).Some?;
    assert Collect(g.entries, 1, 2).Some?;
    assert Enforce(g.(current := 2), ArchiveCount, false) == g.(current := 2);
  }

  lemma SixthStrokeIsMade(x: nat -> Roots)
    ensures var s := WithGap(x).(current := 2);
            var b := Begin(s, "edit", x(2), Paint);
            b.Some? && Commit(b.value, x(6), ArchiveCount) == Some(SixthStroke(x))
  {
    hide Inv, WithGap, DeltaBetween, Begin, Commit;
    GapIsThere(x);
    var s := WithGap(x).(current := 2);
    assert s.snapshots[2 := Snapshot(x(2).model, x(2).context)] == s.snapshots;
    forall i | 0 <= i < |s.entries| ensures s.entries[i].before != 2 {
      assert s.entries[i] in s.entries;
    }
    EditExtends(s, x(2), Paint, x(6), ArchiveCount);
  }

  lemma SplitIsReached(x: nat -> Roots)
    requires Usable(x)
    ensures Inv(Empty(5, 1)) && Inv(SixthStroke(x)) && Run(Empty(5, 1), SplittingCalls(x), ArchiveCount) == SixthStroke(x)
  {
    hide Inv, Run, EditCalls, Restore, Redo, Begin, Commit, Edited, Back, Evict, SixthStroke, Usable;
    EmptyKeepsInv(5, 1);
    var s, a := Empty(5, 1), EditCalls(x, 5, true);
    EditsAreReached(x, 5, true, 5);
    CallsJoin(s, a, RestoreCall(1, Some(x(5))), ArchiveCount);
    JumpTakesNextButOne(x, 5, 1, true);
    CallsJoin(s, a + [RestoreCall(1, Some(x(5)))], RedoCall, ArchiveCount);
    RedoOverGap(x);
    SixthStrokeIsMade(x);
    EditCallsRun(s, a + [RestoreCall(1, Some(x(5)))] + [RedoCall], "edit", x(2), Paint, x(6), ArchiveCount);
    RunsJoin(s, SplittingCalls(x), [], ArchiveCount);
  }

  lemma SixthContents(x: nat -> Roots) returns (last: Entry)
    ensures var g, s := WithGap(x), SixthStroke(x);
            && s.entries == g.entries + [last] && last.before == 2 && last.after == 6 == s.current && SessionPaint(last, 1)
            && Closable(s, 1) && |s.snapshots| == 5 == s.budget
  {
    hide Inv, WithGap, DeltaBetween;
    GapIsThere(x);
    var g, s := WithGap(x), SixthStroke(x);
    last := s.entries[|g.entries|];
    assert g.snapshots[2 := Snapshot(x(2).model, x(2).context)] == g.snapshots;
  }

  /** If a later edge than the one into `t` stands before the one out of it, they are no
      neighbours. */
  lemma KeptApart(es: seq<Entry>, top: nat, between: Entry, last: Entry, t: nat, sid: nat)
    requires Threaded(es + [last], top) && between in es && between.after > t
    requires last.before == t && forall e <- es :: e.before != t
    ensures forall i: nat :: Joined(es + [last], |es| + 1, sid, i) ==> (es + [last])[i].after != t
  {
    var all := es + [last];
    var k :| 0 <= k < |es| && es[k] == between;
    forall i: nat | Joined(all, |es| + 1, sid, i) ensures all[i].after != t {
      assert all[k] == between;
      if i < k {
        assert es[i + 1] in es && all[i + 1] == es[i + 1];
      } else {
        assert k < i ==> all[k].after < all[i].after;
      }
    }
  }

  lemma SplitStrokes(x: nat -> Roots)
    requires Inv(SixthStroke(x))
    ensures Closable(SixthStroke(x), 1) && |SixthStroke(x).snapshots| == 5 == SixthStroke(x).budget
    ensures !StrokesAreNeighbours(SixthStroke(x), 1)
  {
    hide Inv, WithGap, SixthStroke, DeltaBetween, UndoList, Joined;
    GapIsThere(x);
    var g, s := WithGap(x), SixthStroke(x);
    var last := SixthContents(x);
    assert last in s.entries && Edge(x, 1, true) in s.entries;
    IsThreaded(s);
    UniqueUndo(s.entries, s.nextTimestamp, last);
    LastUndone(s, last);
    KeptApart(g.entries, s.nextTimestamp, Edge(x, 4, true), last, 2, 1);
    assert Joint(s.entries, 1, 2);
  }

  lemma LastUndone(s: Timeline, e: Entry)
    requires Inv(s) && UndoEntry(s.entries, s.current) == Some(e)
    ensures e.before in UndoList(s)
  {
    hide Threaded, MarksInv;
    assert UndoList(s)[|UndoList(s)| - 1] == e.before;
  }

  lemma MergingAddsNothing(s: Timeline, title: string)
    requires s.session.Some?
    ensures |BeforeClosingLoss(s, title).snapshots| <= |s.snapshots|
  {
    hide MergeRuns, InsideRuns, AppliedCount, Unreferenced, TruncateRedo;
    var merged := MergeSession(s, title);
    CutAddsNothing(merged);
    Fewer(BeforeClosingLoss(s, title).snapshots, s.snapshots);
  }

  lemma CutAddsNothing(s: Timeline)
    ensures TruncateRedo(s).snapshots.Keys <= s.snapshots.Keys
  {
    hide FirstLeaving, EndsOf;
  }

  lemma Fewer(m: map<nat, Snapshot>, r: map<nat, Snapshot>)
    requires m.Keys <= r.Keys
    ensures |m| <= |r|
  {
    assert r.Keys == m.Keys + (r.Keys - m.Keys);
  }

  /** Six strokes of one session with room for five archives, the last of them after a jump back
      and a redo step: closing the session leaves two consecutive strokes on the undo list,
      because an edge that is out of reach stands between them in the list. */
  lemma RunStaysInTwoPieces(x: nat -> Roots, title: string)
    requires Usable(x)
    ensures Inv(Empty(5, 1))
    ensures var s := Run(Empty(5, 1), SplittingCalls(x), ArchiveCount);
            Inv(s) && Closable(s, 1) && var u := Close(s, 1, title, ArchiveCount).value; Inv(u) && !Collapsed(u, 1)
  {
    hide Inv, Run, SplittingCalls, SixthStroke, Close, BeforeClosingLoss, StrokesAreNeighbours, Collapsed;
    SplitIsReached(x);
    SplitStrokes(x);
    MergingAddsNothing(SixthStroke(x), title);
    CloseCollapses(SixthStroke(x), 1, title, ArchiveCount);
  }

  // ---------- timestamps after starting over ----------

  lemma {:induction false} EditsCount(s: Timeline, x: nat -> Roots, n: nat, bytes: Timeline -> nat)
    requires Inv(s) && Usable(x) && s.operation.None? && s.current !in s.snapshots && s.nextTimestamp == s.current + 1
    ensures var u := Run(s, EditCalls(x, n, false), bytes);
            && Inv(u) && u.operation.None? && u.current !in u.snapshots
            && u.current == s.current + n && u.nextTimestamp == u.current + 1
  {
    hide Inv, Commit, Capturable, SameShape, UndoList, RedoList;
    if n > 0 {
      EditsCount(s, x, n - 1, bytes);
      var a := EditCalls(x, n - 1, false);
      var u := Run(s, a, bytes);
      assert Capturable(x(n - 1).model);
      var b := Begin(u, "edit", x(n - 1), NonPaint).value;
      BeginKeepsInv(u, "edit", x(n - 1), NonPaint);
      OuterCommitSucceeds(b, x(n), bytes);
      var k := CommitExtendsUndo(b, x(n), bytes);
      EditCallsRun(s, a, "edit", x(n - 1), NonPaint, x(n), bytes);
    }
  }

  /** Starting over gives timestamps out again: whatever the history was, and whatever was settled
      at `t`, after `ClearCall` and edits through any states `x` an Undo to `t` returns `x(t)`. */
  lemma AnythingAfterClear(s: Timeline, x: nat -> Roots, t: nat, bytes: Timeline -> nat)
    requires Inv(s) && Usable(x)
    ensures var u := Run(s, [ClearCall] + EditCalls(x, t + 1, false), bytes);
            && Inv(u) && Forward(u.entries) && Undo(u, x(t + 1), bytes).Some?
            && Undo(u, x(t + 1), bytes).value.1.timestamp == t
            && Undo(u, x(t + 1), bytes).value.1.snapshot.model == x(t).model
  {
    hide Inv, Commit, Undo, Redo, Capturable, SameShape, UndoList, RedoList, Run, Visible;
    OneCall(s, ClearCall, bytes);
    RunsJoin(s, [ClearCall], EditCalls(x, t + 1, false), bytes);
    var c := Clear(s);
    EditsCount(c, x, t, bytes);
    var a := EditCalls(x, t, false);
    var v := Run(c, a, bytes);
    assert Capturable(x(t).model) && Capturable(x(t + 1).model);
    EdgesPointForward(v);
    EditUndoRedo(v, "edit", x(t), NonPaint, x(t + 1), x(t + 1), bytes);
    EditCallsRun(c, a, "edit", x(t), NonPaint, x(t + 1), bytes);
    EdgesPointForward(Run(c, EditCalls(x, t + 1, false), bytes));
  }
}
