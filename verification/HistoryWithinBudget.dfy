/** As long as the budget takes nothing, the list of edges is one unbroken chain through the
    cursor, and closing or compacting a session leaves one step of every paint run. */
module HistoryWithinBudget {
  import opened Wrappers
  import opened HistoryThreads
  import opened History
  import opened HistorySteps
  import opened HistoryNavigation
  import opened HistoryCompaction
  import opened HistoryPaintRuns
  import opened HistoryRuns
  import opened HistoryIdentities

  /** The accounting under which nothing is ever evicted. */
  function Nothing(s: Timeline): nat {
    0
  }

  /** Each call of the run does what it would do with memory to spare. */
  ghost predicate WithinBudget(s: Timeline, calls: seq<Call>, bytes: Timeline -> nat)
    requires Inv(s)
    decreases |calls|
  {
    calls == [] ||
    (StepKeeps(s, calls[0], bytes);
     Step(s, calls[0], bytes) == Step(s, calls[0], Nothing) && WithinBudget(Step(s, calls[0], bytes), calls[1..], bytes))
  }

  lemma {:induction false} SameRunWithinBudget(s: Timeline, calls: seq<Call>, bytes: Timeline -> nat)
    requires Inv(s) && WithinBudget(s, calls, bytes)
    ensures Run(s, calls, bytes) == Run(s, calls, Nothing)
    decreases |calls|
  {
    hide Inv, Step;
    if calls != [] {
      EdgesPointForward(s);
      StepKeeps(s, calls[0], bytes);
      StepKeeps(s, calls[0], Nothing);
      SameRunWithinBudget(Step(s, calls[0], bytes), calls[1..], bytes);
    }
  }

  // ---------- chains ----------

  /** Each edge starts where the one before it in the list ends. */
  ghost predicate Chain(es: seq<Entry>) {
    forall i, j | 0 <= i && j == i + 1 && j < |es| :: es[i].after == es[j].before
  }

  ghost predicate EndsAt(es: seq<Entry>, t: nat) {
    exists e <- es :: e.after == t
  }

  ghost predicate OnChain(es: seq<Entry>, t: nat) {
    es == [] || es[0].before == t || EndsAt(es, t)
  }

  ghost predicate Unbroken(s: Timeline) {
    Chain(s.entries) && OnChain(s.entries, s.current)
  }

  lemma StartIsOnChain(es: seq<Entry>, e: Entry)
    requires Chain(es) && e in es
    ensures OnChain(es, e.before)
  {
    var k :| 0 <= k < |es| && es[k] == e;
    if k > 0 {
      assert es[k - 1].after == es[k].before && es[k - 1] in es;
    }
  }

  lemma LeftUnlessLast(es: seq<Entry>, k: nat)
    requires Chain(es) && k + 1 < |es|
    ensures exists j | 0 <= j < |es| :: es[j].before == es[k].after
  {
    assert es[k + 1].before == es[k].after;
  }

  lemma LastUnlessLeft(es: seq<Entry>, t: nat, k: nat)
    requires Chain(es) && k < |es| && es[k].after == t && forall j | 0 <= j < |es| :: es[j].before != t
    ensures k + 1 == |es|
  {
    hide Chain;
    if k + 1 < |es| {
      LeftUnlessLast(es, k);
    }
  }

  /** Cutting the chain at the cursor leaves a chain that ends there. */
  lemma CutChain(es: seq<Entry>, t: nat)
    requires Chain(es) && OnChain(es, t)
    ensures var cut := es[..FirstLeaving(es, t)];
            Chain(cut) && OnChain(cut, t) && (cut != [] ==> cut[|cut| - 1].after == t)
  {
    hide FirstLeaving;
    var i := FirstLeaving(es, t);
    var cut := es[..i];
    if cut != [] {
      if i < |es| {
        assert es[i - 1].after == es[i].before;
      } else {
        assert EndsAt(es, t);
        var e :| e in es && e.after == t;
        var k :| 0 <= k < |es| && es[k] == e;
        LastUnlessLeft(es, t, k);
      }
      assert cut[i - 1] in cut;
    }
  }

  lemma LongerChain(es: seq<Entry>, e: Entry)
    requires Chain(es) && (es != [] ==> es[|es| - 1].after == e.before)
    ensures Chain(es + [e]) && OnChain(es + [e], e.after)
  {
    assert e in es + [e];
  }

  lemma {:induction false} WalkEndsOnChain(es: seq<Entry>, from: nat, to: nat)
    requires Forward(es) && Chain(es) && OnChain(es, from) && Collect(es, from, to).Some?
    ensures OnChain(es, to)
    decreases if to < from then from - to else to - from
  {
    hide Chain, OnChain;
    if to < from {
      var e := UndoEntry(es, from).value;
      StartIsOnChain(es, e);
      WalkEndsOnChain(es, e.before, to);
    } else if from < to {
      var e := RedoEntry(es, from).value;
      assert OnChain(es, e.after) by { EndIsOnChain(es, e); }
      WalkEndsOnChain(es, e.after, to);
    }
  }

  lemma EndIsOnChain(es: seq<Entry>, e: Entry)
    requires e in es
    ensures OnChain(es, e.after)
  {
  }

  lemma PrependChain(e: Entry, es: seq<Entry>)
    requires Chain(es) && (es != [] ==> e.after == es[0].before)
    ensures Chain([e] + es)
  {
  }

  lemma TailChain(es: seq<Entry>)
    requires Chain(es) && |es| >= 1
    ensures Chain(es[1..]) && (|es| >= 2 ==> es[0].after == es[1].before)
  {
    assert forall i, j | 0 <= i && j == i + 1 && j < |es[1..]| :: es[1..][i] == es[i + 1] && es[1..][j] == es[j + 1];
  }

  /** Merging keeps a chain and its start. */
  lemma {:induction false} MergedChain(es: seq<Entry>, n: nat, sid: nat, title: string)
    requires n <= |es| && Chain(es)
    ensures var ms := MergeRuns(es, n, sid, title);
            Chain(ms) && (ms == [] <==> es == []) && (es != [] ==> ms[0].before == es[0].before)
    decreases |es|
  {
    hide Chain;
    if n >= 2 {
      TailChain(es);
      if Mergeable(es[0], es[1], sid) {
        TailChain(es[1..]);
        assert es[1..][1..] == es[2..];
        PrependChain(Combine(es[0], es[1], title), es[2..]);
        MergedChain([Combine(es[0], es[1], title)] + es[2..], n - 1, sid, title);
      } else {
        MergedChain(es[1..], n - 1, sid, title);
        PrependChain(es[0], MergeRuns(es[1..], n - 1, sid, title));
      }
    }
  }

  lemma EndsPrepended(e: Entry, es: seq<Entry>, t: nat)
    ensures EndsAt([e] + es, t) <==> e.after == t || EndsAt(es, t)
  {
    assert e in [e] + es;
    assert forall f <- es :: f in [e] + es;
  }

  lemma EndsOfTail(es: seq<Entry>, t: nat)
    requires es != []
    ensures EndsAt(es, t) <==> es[0].after == t || EndsAt(es[1..], t)
  {
    assert es == [es[0]] + es[1..];
    EndsPrepended(es[0], es[1..], t);
  }

  /** Edges end where they ended, but for the timestamps merged away. */
  lemma {:induction false} MergedEndsAt(es: seq<Entry>, n: nat, sid: nat, title: string, t: nat)
    requires n <= |es| && t !in InsideRuns(es, n, sid, title)
    ensures EndsAt(MergeRuns(es, n, sid, title), t) <==> EndsAt(es, t)
    decreases |es|
  {
    hide EndsAt;
    if n >= 2 {
      EndsOfTail(es, t);
      if Mergeable(es[0], es[1], sid) {
        var c := Combine(es[0], es[1], title);
        EndsOfTail(es[1..], t);
        assert es[1..][1..] == es[2..];
        EndsPrepended(c, es[2..], t);
        MergedEndsAt([c] + es[2..], n - 1, sid, title, t);
      } else {
        MergedEndsAt(es[1..], n - 1, sid, title, t);
        EndsPrepended(es[0], MergeRuns(es[1..], n - 1, sid, title), t);
      }
    }
  }

  // ---------- every call ----------

  lemma NothingIsTaken(s: Timeline, preserveRedo: bool)
    ensures Enforce(s, Nothing, preserveRedo) == s
  {
  }

  lemma CutStaysUnbroken(s: Timeline)
    requires Unbroken(s)
    ensures Unbroken(TruncateRedo(s)) && TruncateRedo(s).current == s.current
    ensures var es := TruncateRedo(s).entries; es != [] ==> es[|es| - 1].after == s.current
  {
    hide Chain, OnChain, FirstLeaving;
    CutChain(s.entries, s.current);
    assert FirstLeaving(s.entries, s.current) == |s.entries| ==> s.entries[..|s.entries|] == s.entries;
  }

  lemma CommitStaysUnbroken(s: Timeline, succ: Roots)
    requires Inv(s) && Unbroken(s) && Commit(s, succ, Nothing).Some?
    ensures Unbroken(Commit(s, succ, Nothing).value)
  {
    hide Chain, OnChain, FirstLeaving, TruncateRedo, DeltaBetween, EdgesInv;
    if s.operation.value.depth <= 1 {
      var op, closed := s.operation.value, s.(operation := None);
      CutStaysUnbroken(closed);
      var cut := TruncateRedo(closed);
      LongerChain(cut.entries, NewEntry(cut, op, succ));
      NothingIsTaken(Append(cut, op, succ), false);
    }
  }

  lemma RestoreStaysUnbroken(s: Timeline, target: nat, live: Option<Roots>)
    requires Unbroken(s) && Forward(s.entries) && Restore(s, target, live, Nothing).Some?
    ensures Unbroken(Restore(s, target, live, Nothing).value.0)
  {
    hide Chain, OnChain, Collect, Capturable;
    WalkEndsOnChain(s.entries, s.current, target);
    var c := if s.current in s.snapshots then s else CaptureTop(s, live.value).value;
    NothingIsTaken(c.(current := target), false);
  }

  lemma MergeStaysUnbroken(s: Timeline, title: string)
    requires Inv(s) && s.session.Some? && Unbroken(s)
    ensures Unbroken(MergeSession(s, title)) && MergeSession(s, title).current == s.current
  {
    hide Chain, MergeRuns, InsideRuns, AppliedCount, EdgesInv, MarksInv;
    var n, sid := AppliedCount(s.entries, s.current), s.session.value.id;
    AppliedIsEarlier(s.entries, s.current);
    assert forall i, j | 0 <= i < j < n :: s.entries[i].after < s.entries[j].after by { IsThreaded(s); }
    InsideIsEarlier(s.entries, n, sid, title, s.current);
    MergedChain(s.entries, n, sid, title);
    MergedEndsAt(s.entries, n, sid, title, s.current);
  }

  lemma MergingStaysUnbroken(s: Timeline, sid: nat, title: string)
    requires Inv(s) && Unbroken(s)
    ensures Compact(s, sid, title, Nothing).Some? ==> Unbroken(Compact(s, sid, title, Nothing).value)
    ensures Close(s, sid, title, Nothing).Some? ==> Unbroken(Close(s, sid, title, Nothing).value)
  {
    hide Chain, OnChain, Inv, MergeSession, TruncateRedo, InsideRuns, AppliedCount, Enforce;
    if Closable(s, sid) {
      var merged := MergeSession(s, title);
      MergeStaysUnbroken(s, title);
      CutStaysUnbroken(merged);
      NothingIsTaken(merged, true);
      var effective := s.session.value.effective;
      NothingIsTaken(EndSession(if effective then TruncateRedo(merged) else merged), !effective);
    }
  }

  lemma StepStaysUnbroken(s: Timeline, c: Call)
    requires Inv(s) && Forward(s.entries) && Unbroken(s)
    ensures Unbroken(Step(s, c, Nothing))
  {
    hide EdgesInv, MarksInv, Commit, Restore, Compact, Close, Enforce, EntryById, SameShape, Capturable, Chain, OnChain;
    match c {
      case CommitOperation(succ) => if Commit(s, succ, Nothing).Some? { CommitStaysUnbroken(s, succ); }
      case UndoCall(live) =>
        UndoIsRestore(s, live, Nothing);
        if Undo(s, live, Nothing).Some? { RestoreStaysUnbroken(s, UndoList(s)[|UndoList(s)| - 1], Some(live)); }
      case RedoCall =>
        RedoIsRestore(s, Nothing);
        if Redo(s, Nothing).Some? { RestoreStaysUnbroken(s, RedoList(s)[0], None); }
      case RestoreCall(target, live) => if Restore(s, target, live, Nothing).Some? { RestoreStaysUnbroken(s, target, live); }
      case RestoreEntryCall(id, after, live) =>
        if RestoreEntry(s, id, after, live, Nothing).Some? {
          var e := EntryById(s.entries, id).value;
          RestoreStaysUnbroken(s, if after then e.after else e.before, live);
        }
      case SetByteBudget(budget) => NothingIsTaken(s.(budget := budget), false);
      case CompactEditingSession(sid, title) => MergingStaysUnbroken(s, sid, title);
      case CloseEditingSession(sid, title) => MergingStaysUnbroken(s, sid, title);
      case ClearCall => assert Chain([]) && OnChain([], 0) by { NoEdges(); }
      case _ =>
    }
  }

  lemma NoEdges()
    ensures Chain([]) && OnChain([], 0)
  {
  }

  lemma {:induction false} RunStaysUnbroken(s: Timeline, calls: seq<Call>)
    requires Inv(s) && Unbroken(s)
    ensures Inv(Run(s, calls, Nothing)) && Unbroken(Run(s, calls, Nothing))
    decreases |calls|
  {
    hide Inv, Unbroken, Step;
    if calls != [] {
      EdgesPointForward(s);
      StepKeeps(s, calls[0], Nothing);
      StepStaysUnbroken(s, calls[0]);
      RunStaysUnbroken(Step(s, calls[0], Nothing), calls[1..]);
    }
  }

  // ---------- one step each run ----------

  lemma ChainMakesNeighbours(s: Timeline, sid: nat)
    requires Inv(s) && Chain(s.entries)
    ensures StrokesAreNeighbours(s, sid)
  {
    hide Inv, UndoList, Joint, Chain;
    IsThreaded(s);
    forall t | t in UndoList(s) && Joint(s.entries, sid, t) ensures NeighboursAt(s, sid, t) {
      var i := JointOfChain(s.entries, s.nextTimestamp, sid, t);
    }
  }

  lemma JointOfChain(es: seq<Entry>, top: nat, sid: nat, t: nat) returns (i: nat)
    requires Threaded(es, top) && Chain(es) && Joint(es, sid, t)
    ensures Joined(es, |es|, sid, i) && es[i].after == t
  {
    hide Threaded, Chain;
    var a :| a in es && a.after == t && SessionPaint(a, sid);
    var b :| b in es && b.before == t && SessionPaint(b, sid);
    i :| 0 <= i < |es| && es[i] == a;
    var j :| 0 <= j < |es| && es[j] == b;
    NextInChain(es, top, i, j);
  }

  lemma NextInChain(es: seq<Entry>, top: nat, i: nat, j: nat)
    requires Threaded(es, top) && Chain(es) && i < |es| && j < |es| && es[j].before == es[i].after
    ensures j == i + 1
  {
    assert es[j] in es;
    if i + 1 < |es| {
      assert es[i].after == es[i + 1].before;
    }
  }

  /** In every run from an empty history in which nothing was evicted, compacting or closing the
      open session leaves no two consecutive strokes of it on the undo list. */
  lemma RunsCollapseWithinBudget(budget: nat, nextSession: nat, calls: seq<Call>, sid: nat, title: string, bytes: Timeline -> nat, last: Timeline -> nat)
    requires Inv(Empty(budget, nextSession)) && WithinBudget(Empty(budget, nextSession), calls, bytes)
    ensures var s := Run(Empty(budget, nextSession), calls, bytes);
            Inv(s) && (Closable(s, sid) ==>
              && Inv(Compact(s, sid, title, last).value) && Collapsed(Compact(s, sid, title, last).value, sid)
              && Inv(Close(s, sid, title, last).value) && Collapsed(Close(s, sid, title, last).value, sid))
  {
    hide Inv, Run, WithinBudget, Compact, Close, Collapsed, StrokesAreNeighbours;
    var e := Empty(budget, nextSession);
    NoEdges();
    SameRunWithinBudget(e, calls, bytes);
    RunStaysUnbroken(e, calls);
    var s := Run(e, calls, bytes);
    ChainMakesNeighbours(s, sid);
    if Closable(s, sid) {
      CompactCollapses(s, sid, title, last);
      CloseCollapses(s, sid, title, last);
    }
  }
}
