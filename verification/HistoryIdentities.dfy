/** What a history never hands out twice and never gives back: the ids of editing sessions, over
    every run, and timestamps that have fallen off the line, over every run that does not start
    over. */
module HistoryIdentities {
  import opened Wrappers
  import opened HistoryThreads
  import opened History
  import opened HistorySteps
  import opened HistoryNavigation
  import opened HistoryCompaction
  import opened HistoryRuns

  // ---------- session ids ----------

  /** All ids below this one have been handed out. */
  function NextId(s: Timeline): nat {
    if s.nextSession == 0 then LAST_SESSION + 1 else s.nextSession
  }

  predicate SessionIsOld(s: Timeline) {
    s.session.Some? ==> s.session.value.id < NextId(s)
  }

  /** The id was handed out and its session is over. */
  predicate Spent(s: Timeline, sid: nat) {
    sid < NextId(s) && (s.session.Some? ==> s.session.value.id != sid)
  }

  predicate SameSession(s: Timeline, u: Timeline) {
    && u.nextSession == s.nextSession
    && (u.session.Some? ==> s.session.Some? && u.session.value.id == s.session.value.id)
  }

  /** The session of `u` is that of `s`, or a new one under the next id. */
  predicate SessionFollows(s: Timeline, u: Timeline) {
    SameSession(s, u) || (u.session.Some? && u.session.value.id == NextId(s) && NextId(u) == NextId(s) + 1)
  }

  lemma CommitKeepsSession(s: Timeline, succ: Roots, bytes: Timeline -> nat)
    requires Commit(s, succ, bytes).Some?
    ensures SameSession(s, Commit(s, succ, bytes).value)
  {
    hide Enforce, NewEntry, FirstLeaving;
    if s.operation.value.depth <= 1 {
      EnforceKeepsRest(Append(TruncateRedo(s.(operation := None)), s.operation.value, succ), bytes, false);
    }
  }

  lemma RestoreKeepsSession(s: Timeline, target: nat, live: Option<Roots>, bytes: Timeline -> nat)
    requires Forward(s.entries) && Restore(s, target, live, bytes).Some?
    ensures SameSession(s, Restore(s, target, live, bytes).value.0)
  {
    hide Enforce, Collect, Capturable;
    var c := if s.current in s.snapshots then s else CaptureTop(s, live.value).value;
    EnforceKeepsRest(c.(current := target), bytes, false);
  }

  lemma MergingKeepsSession(s: Timeline, sid: nat, title: string, bytes: Timeline -> nat)
    requires Closable(s, sid)
    ensures SameSession(s, Compact(s, sid, title, bytes).value) && SameSession(s, Close(s, sid, title, bytes).value)
  {
    hide Enforce, MergeRuns, InsideRuns, AppliedCount, FirstLeaving;
    var merged := MergeSession(s, title);
    EnforceKeepsRest(merged, bytes, true);
    var effective := s.session.value.effective;
    EnforceKeepsRest(EndSession(if effective then TruncateRedo(merged) else merged), bytes, !effective);
  }

  lemma StepFollowsSession(s: Timeline, c: Call, bytes: Timeline -> nat)
    requires Inv(s) && Forward(s.entries)
    ensures SessionFollows(s, Step(s, c, bytes))
  {
    hide EdgesInv, MarksInv, Commit, Restore, Compact, Close, Enforce, EntryById, SameShape, Capturable;
    match c {
      case CommitOperation(succ) => if Commit(s, succ, bytes).Some? { CommitKeepsSession(s, succ, bytes); }
      case UndoCall(live) =>
        UndoIsRestore(s, live, bytes);
        if Undo(s, live, bytes).Some? { RestoreKeepsSession(s, UndoList(s)[|UndoList(s)| - 1], Some(live), bytes); }
      case RedoCall =>
        RedoIsRestore(s, bytes);
        if Redo(s, bytes).Some? { RestoreKeepsSession(s, RedoList(s)[0], None, bytes); }
      case RestoreCall(target, live) => if Restore(s, target, live, bytes).Some? { RestoreKeepsSession(s, target, live, bytes); }
      case RestoreEntryCall(id, after, live) =>
        if RestoreEntry(s, id, after, live, bytes).Some? {
          var e := EntryById(s.entries, id).value;
          RestoreKeepsSession(s, if after then e.after else e.before, live, bytes);
        }
      case SetByteBudget(budget) => EnforceKeepsRest(s.(budget := budget), bytes, false);
      case CompactEditingSession(sid, title) => MergingFollows(s, sid, title, bytes);
      case CloseEditingSession(sid, title) => MergingFollows(s, sid, title, bytes);
      case _ =>
    }
  }

  lemma MergingFollows(s: Timeline, sid: nat, title: string, bytes: Timeline -> nat)
    ensures Compact(s, sid, title, bytes).Some? ==> SameSession(s, Compact(s, sid, title, bytes).value)
    ensures Close(s, sid, title, bytes).Some? ==> SameSession(s, Close(s, sid, title, bytes).value)
  {
    hide Enforce, MergeSession, EndSession, InsideRuns, AppliedCount;
    if Closable(s, sid) {
      MergingKeepsSession(s, sid, title, bytes);
    }
  }

  /** In every run, starting over included: ids only grow, the open session has an id below the
      next one, and an id whose session is over stays refused. */
  lemma {:induction false} IdsOnlyGrow(s: Timeline, calls: seq<Call>, bytes: Timeline -> nat)
    requires Inv(s)
    ensures var u := Run(s, calls, bytes);
            && Inv(u) && NextId(s) <= NextId(u)
            && (SessionIsOld(s) ==> SessionIsOld(u))
            && forall sid: nat :: Spent(s, sid) ==> Spent(u, sid)
    decreases |calls|
  {
    hide Inv, Step, Forward;
    if calls != [] {
      EdgesPointForward(s);
      StepKeeps(s, calls[0], bytes);
      StepFollowsSession(s, calls[0], bytes);
      IdsOnlyGrow(Step(s, calls[0], bytes), calls[1..], bytes);
    }
  }

  /** No id is handed out twice: a session opened after any calls whatever has a greater id than
      one opened before them. */
  lemma NoIdTwice(s: Timeline, calls: seq<Call>, bytes: Timeline -> nat)
    requires Inv(s) && BeginSession(s).Some?
    ensures var a := BeginSession(s).value;
            Inv(a) && var u := Run(a, calls, bytes);
            BeginSession(u).Some? ==> BeginSession(u).value.session.value.id > a.session.value.id
  {
    hide Inv, Run;
    SessionStartsAtCursor(s);
    IdsOnlyGrow(BeginSession(s).value, calls, bytes);
  }

  /** A session that was closed stays closed: after any calls whatever its id compacts and closes
      nothing. */
  lemma ClosedForGood(s: Timeline, sid: nat, title: string, calls: seq<Call>, bytes: Timeline -> nat)
    requires Inv(s) && SessionIsOld(s) && Close(s, sid, title, bytes).Some?
    ensures var a := Close(s, sid, title, bytes).value;
            Inv(a) && var u := Run(a, calls, bytes);
            forall again: string :: Compact(u, sid, again, bytes) == None && Close(u, sid, again, bytes) == None
  {
    hide Inv, Run, MergeSession, Enforce, TruncateRedo, EndSession, InsideRuns, AppliedCount;
    MergingFollows(s, sid, title, bytes);
    var k := CloseHidesInside(s, sid, title, bytes);
    IdsOnlyGrow(Close(s, sid, title, bytes).value, calls, bytes);
    assert Spent(Run(Close(s, sid, title, bytes).value, calls, bytes), sid);
  }

  // ---------- timestamps off the line ----------

  /** The timestamp was given out and is not on the line. */
  ghost predicate OffLine(s: Timeline, t: nat)
    requires Inv(s)
  {
    t < s.nextTimestamp && t !in Visible(s)
  }

  /** Timestamps come onto the line only when they are given out. */
  ghost predicate LineShrinks(s: Timeline, u: Timeline)
    requires Inv(s) && Inv(u)
  {
    s.nextTimestamp <= u.nextTimestamp && forall t <- Visible(u) :: t in Visible(s) || t >= s.nextTimestamp
  }

  lemma TrimmedShrinks(c: Timeline, u: Timeline, k: nat, m: nat)
    requires Inv(c) && Inv(u) && OnlyLost(c, u) && ListsTrimmed(c, u, k, m)
    ensures LineShrinks(c, u)
  {
    hide Inv, UndoList, RedoList;
  }

  lemma SameLine(s: Timeline, u: Timeline)
    requires Inv(s) && Inv(u) && u.entries == s.entries && u.current == s.current && u.nextTimestamp == s.nextTimestamp
    ensures LineShrinks(s, u)
  {
    hide EdgesInv, MarksInv;
  }

  lemma CommitShrinks(s: Timeline, succ: Roots, bytes: Timeline -> nat)
    requires Inv(s) && Commit(s, succ, bytes).Some? && Inv(Commit(s, succ, bytes).value)
    ensures LineShrinks(s, Commit(s, succ, bytes).value)
  {
    hide EdgesInv, MarksInv, Enforce, Append, TruncateRedo, Past, Future;
    if s.operation.value.depth == 1 {
      var k := CommitExtendsUndo(s, succ, bytes);
    } else if s.operation.value.depth > 1 {
      SameLine(s, Commit(s, succ, bytes).value);
    } else {
      NestingIsPositive(s);
    }
  }

  lemma NestingIsPositive(s: Timeline)
    requires Inv(s)
    ensures s.operation.Some? ==> s.operation.value.depth >= 1
  {
    hide EdgesInv;
  }

  lemma RestoreShrinks(s: Timeline, target: nat, live: Option<Roots>, bytes: Timeline -> nat)
    requires Inv(s) && Restore(s, target, live, bytes).Some? && Inv(Restore(s, target, live, bytes).value.0)
    ensures LineShrinks(s, Restore(s, target, live, bytes).value.0)
  {
    hide EdgesInv, MarksInv, Restore, ListsTrimmed, OnlyLost, Visible, Capturable;
    EdgesPointForward(s);
    var k, m := RestoreMovesAlongLine(s, target, live, bytes);
    TrimmedShrinks(Moved(s, target, live), Restore(s, target, live, bytes).value.0, k, m);
  }

  lemma MergingShrinks(s: Timeline, sid: nat, title: string, bytes: Timeline -> nat)
    requires Inv(s) && Closable(s, sid)
    requires Inv(Compact(s, sid, title, bytes).value) && Inv(Close(s, sid, title, bytes).value)
    ensures LineShrinks(s, Compact(s, sid, title, bytes).value) && LineShrinks(s, Close(s, sid, title, bytes).value)
  {
    hide EdgesInv, MarksInv, Compact, Close, UndoList, RedoList, Inside;
    assert Compact(s, sid, title, bytes).Some? && Close(s, sid, title, bytes).Some? by { SessionCallsSucceed(s, sid, title, bytes); }
    SessionCallsSucceed(s, sid, title, bytes);
    var k := CompactHidesInside(s, sid, title, bytes);
    k := CloseHidesInside(s, sid, title, bytes);
  }

  lemma StepShrinks(s: Timeline, c: Call, bytes: Timeline -> nat)
    requires Inv(s) && Forward(s.entries) && !c.ClearCall? && Inv(Step(s, c, bytes))
    ensures LineShrinks(s, Step(s, c, bytes))
  {
    hide EdgesInv, MarksInv, Commit, Restore, Compact, Close, Enforce, EntryById, SameShape, Capturable, LineShrinks, OnlyLost, ListsTrimmed, UndoList, RedoList, Visible;
    SameLine(s, s);
    match c {
      case CommitOperation(succ) => if Commit(s, succ, bytes).Some? { CommitShrinks(s, succ, bytes); }
      case UndoCall(live) =>
        UndoIsRestore(s, live, bytes);
        if Undo(s, live, bytes).Some? { RestoreShrinks(s, UndoList(s)[|UndoList(s)| - 1], Some(live), bytes); }
      case RedoCall =>
        RedoIsRestore(s, bytes);
        if Redo(s, bytes).Some? { RestoreShrinks(s, RedoList(s)[0], None, bytes); }
      case RestoreCall(target, live) => if Restore(s, target, live, bytes).Some? { RestoreShrinks(s, target, live, bytes); }
      case RestoreEntryCall(id, after, live) =>
        if RestoreEntry(s, id, after, live, bytes).Some? {
          var e := EntryById(s.entries, id).value;
          RestoreShrinks(s, if after then e.after else e.before, live, bytes);
        }
      case SetByteBudget(budget) =>
        BudgetIsFree(s, budget);
        var k, m := EnforceTrims(s.(budget := budget), bytes, false);
        SameLine(s, s.(budget := budget));
        TrimmedShrinks(s.(budget := budget), SetBudget(s, budget, bytes), k, m);
        ShrinksCompose(s, s.(budget := budget), SetBudget(s, budget, bytes));
      case CompactEditingSession(sid, title) => SessionCallShrinks(s, c, bytes);
      case CloseEditingSession(sid, title) => SessionCallShrinks(s, c, bytes);
      case ClearCall =>
      case _ => SameLine(s, Step(s, c, bytes));
    }
  }

  lemma BudgetIsFree(s: Timeline, budget: nat)
    requires Inv(s)
    ensures Inv(s.(budget := budget))
  {
    hide Threaded;
  }

  lemma ShrinksCompose(s: Timeline, u: Timeline, v: Timeline)
    requires Inv(s) && Inv(u) && Inv(v) && LineShrinks(s, u) && LineShrinks(u, v)
    ensures LineShrinks(s, v)
  {
    hide Inv, Visible;
  }

  lemma SessionCallShrinks(s: Timeline, c: Call, bytes: Timeline -> nat)
    requires Inv(s) && Forward(s.entries) && (c.CompactEditingSession? || c.CloseEditingSession?) && Inv(Step(s, c, bytes))
    ensures LineShrinks(s, Step(s, c, bytes))
  {
    hide EdgesInv, MarksInv, Compact, Close, LineShrinks;
    SameLine(s, s);
    if Closable(s, c.sid) {
      SessionStep(s, c.sid, c.title, bytes);
      MergingShrinks(s, c.sid, c.title, bytes);
    } else {
      NotClosable(s, c.sid, c.title, bytes);
    }
  }

  lemma NotClosable(s: Timeline, sid: nat, title: string, bytes: Timeline -> nat)
    requires !Closable(s, sid)
    ensures Compact(s, sid, title, bytes) == None && Close(s, sid, title, bytes) == None
  {
  }

  /** A timestamp that is off the line stays off it, and jumps to it are refused, whatever is
      called, short of starting over. */
  lemma {:induction false} OffLineForGood(s: Timeline, calls: seq<Call>, t: nat, live: Option<Roots>, bytes: Timeline -> nat)
    requires Inv(s) && OffLine(s, t)
    requires forall i | 0 <= i < |calls| :: !calls[i].ClearCall?
    ensures var u := Run(s, calls, bytes);
            Inv(u) && OffLine(u, t) && Forward(u.entries) && Restore(u, t, live, bytes) == None
    decreases |calls|
  {
    hide Inv, Step, Forward, Restore, Visible;
    EdgesPointForward(s);
    if calls == [] {
      RestoreSucceedsIff(s, t, live, bytes);
    } else {
      StepKeeps(s, calls[0], bytes);
      StepShrinks(s, calls[0], bytes);
      OffLineForGood(Step(s, calls[0], bytes), calls[1..], t, live, bytes);
    }
  }

  // ---------- entry ids ----------

  /** Entries are listed by growing id, below the next one to be given out. */
  ghost predicate IdsAscend(es: seq<Entry>, next: nat) {
    && (forall i | 0 <= i < |es| :: es[i].id < next)
    && (forall i, j | 0 <= i < j < |es| :: es[i].id < es[j].id)
  }

  lemma PrependAscends(e: Entry, es: seq<Entry>, next: nat)
    requires IdsAscend(es, next) && e.id < next && forall f <- es :: e.id < f.id
    ensures IdsAscend([e] + es, next)
  {
  }

  lemma TailAscends(es: seq<Entry>, next: nat)
    requires IdsAscend(es, next) && es != []
    ensures IdsAscend(es[1..], next) && es[0].id < next && forall f <- es[1..] :: es[0].id < f.id
  {
  }

  lemma {:induction false} RetainAscends(es: seq<Entry>, kept: set<nat>, next: nat)
    requires IdsAscend(es, next)
    ensures IdsAscend(Retain(es, kept), next)
  {
    hide IdsAscend;
    if es != [] {
      TailAscends(es, next);
      RetainAscends(es[1..], kept, next);
      assert [] + Retain(es[1..], kept) == Retain(es[1..], kept);
      PrependAscends(es[0], Retain(es[1..], kept), next);
    }
  }

  lemma {:induction false} EnforceAscends(s: Timeline, bytes: Timeline -> nat, preserveRedo: bool)
    requires IdsAscend(s.entries, s.nextEntry)
    ensures IdsAscend(Enforce(s, bytes, preserveRedo).entries, s.nextEntry)
    decreases |s.snapshots|
  {
    hide IdsAscend, Evictable, Available;
    if bytes(s) > s.budget && Candidate(s, preserveRedo, 0).Some? {
      var x := Candidate(s, preserveRedo, 0).value;
      EvictShrinks(s, preserveRedo, x);
      RetainAscends(s.entries, Available(Erase(s, {x})), s.nextEntry);
      EnforceAscends(Evict(s, x), bytes, preserveRedo);
    }
  }

  ghost predicate KnownId(e: Entry, es: seq<Entry>) {
    exists f <- es :: f.id == e.id
  }

  /** Merged strokes go by the ids of strokes. */
  lemma {:induction false} MergedIdsAreKnown(es: seq<Entry>, n: nat, sid: nat, title: string)
    requires n <= |es|
    ensures forall e <- MergeRuns(es, n, sid, title) :: KnownId(e, es)
    decreases |es|
  {
    if n >= 2 {
      var ms := MergeRuns(es, n, sid, title);
      assert es[0] in es;
      if Mergeable(es[0], es[1], sid) {
        var cs := [Combine(es[0], es[1], title)] + es[2..];
        MergedIdsAreKnown(cs, n - 1, sid, title);
        assert cs[0].id == es[0].id && forall c <- cs :: c == cs[0] || c in es;
        forall e | e in ms ensures KnownId(e, es) {
          assert KnownId(e, cs);
        }
      } else {
        MergedIdsAreKnown(es[1..], n - 1, sid, title);
        forall e | e in ms ensures KnownId(e, es) {
          assert e == es[0] || KnownId(e, es[1..]);
        }
      }
    }
  }

  lemma {:induction false} MergedAscends(es: seq<Entry>, n: nat, sid: nat, title: string, next: nat)
    requires n <= |es| && IdsAscend(es, next)
    ensures IdsAscend(MergeRuns(es, n, sid, title), next)
    decreases |es|
  {
    hide IdsAscend;
    if n >= 2 {
      TailAscends(es, next);
      if Mergeable(es[0], es[1], sid) {
        TailAscends(es[1..], next);
        assert es[1..][1..] == es[2..];
        var c := Combine(es[0], es[1], title);
        assert forall f <- es[2..] :: f in es[1..] by { TailOfTail(es); }
        PrependAscends(c, es[2..], next);
        MergedAscends([c] + es[2..], n - 1, sid, title, next);
      } else {
        var rest := MergeRuns(es[1..], n - 1, sid, title);
        MergedAscends(es[1..], n - 1, sid, title, next);
        MergedIdsAreKnown(es[1..], n - 1, sid, title);
        forall e | e in rest ensures es[0].id < e.id {
          assert KnownId(e, es[1..]);
        }
        PrependAscends(es[0], rest, next);
      }
    }
  }

  lemma TailOfTail(es: seq<Entry>)
    requires |es| >= 2
    ensures forall f <- es[2..] :: f in es[1..]
  {
    assert es[1..] == [es[1]] + es[2..];
  }

  lemma CutAscends(s: Timeline)
    requires IdsAscend(s.entries, s.nextEntry)
    ensures IdsAscend(TruncateRedo(s).entries, s.nextEntry) && TruncateRedo(s).nextEntry == s.nextEntry
  {
    hide FirstLeaving, EndsOf;
  }

  lemma CommitAscends(s: Timeline, succ: Roots, bytes: Timeline -> nat)
    requires IdsAscend(s.entries, s.nextEntry) && Commit(s, succ, bytes).Some?
    ensures var u := Commit(s, succ, bytes).value; IdsAscend(u.entries, u.nextEntry)
  {
    hide Enforce, TruncateRedo, DeltaBetween;
    if s.operation.value.depth <= 1 {
      var op, closed := s.operation.value, s.(operation := None);
      CutAscends(closed);
      var grown := Append(TruncateRedo(closed), op, succ);
      EnforceAscends(grown, bytes, false);
      EnforceKeepsRest(grown, bytes, false);
    }
  }

  lemma RestoreAscends(s: Timeline, target: nat, live: Option<Roots>, bytes: Timeline -> nat)
    requires IdsAscend(s.entries, s.nextEntry) && Forward(s.entries) && Restore(s, target, live, bytes).Some?
    ensures var u := Restore(s, target, live, bytes).value.0; IdsAscend(u.entries, u.nextEntry)
  {
    hide Enforce, Collect, Capturable, IdsAscend;
    var c := if s.current in s.snapshots then s else CaptureTop(s, live.value).value;
    EnforceAscends(c.(current := target), bytes, false);
    EnforceKeepsRest(c.(current := target), bytes, false);
  }

  lemma MergingAscends(s: Timeline, sid: nat, title: string, bytes: Timeline -> nat)
    requires IdsAscend(s.entries, s.nextEntry)
    ensures Compact(s, sid, title, bytes).Some? ==> var u := Compact(s, sid, title, bytes).value; IdsAscend(u.entries, u.nextEntry)
    ensures Close(s, sid, title, bytes).Some? ==> var u := Close(s, sid, title, bytes).value; IdsAscend(u.entries, u.nextEntry)
  {
    hide Enforce, MergeRuns, InsideRuns, AppliedCount, TruncateRedo, IdsAscend;
    if Closable(s, sid) {
      var merged := MergeSession(s, title);
      MergedAscends(s.entries, AppliedCount(s.entries, s.current), sid, title, s.nextEntry);
      EnforceAscends(merged, bytes, true);
      EnforceKeepsRest(merged, bytes, true);
      var effective := s.session.value.effective;
      CutAscends(merged);
      var ended := EndSession(if effective then TruncateRedo(merged) else merged);
      EnforceAscends(ended, bytes, !effective);
      EnforceKeepsRest(ended, bytes, !effective);
    }
  }

  lemma StepAscends(s: Timeline, c: Call, bytes: Timeline -> nat)
    requires Inv(s) && Forward(s.entries) && IdsAscend(s.entries, s.nextEntry)
    ensures var u := Step(s, c, bytes); IdsAscend(u.entries, u.nextEntry)
  {
    hide EdgesInv, MarksInv, Commit, Restore, Compact, Close, Enforce, EntryById, SameShape, Capturable, IdsAscend;
    match c {
      case CommitOperation(succ) => if Commit(s, succ, bytes).Some? { CommitAscends(s, succ, bytes); }
      case UndoCall(live) =>
        UndoIsRestore(s, live, bytes);
        if Undo(s, live, bytes).Some? { RestoreAscends(s, UndoList(s)[|UndoList(s)| - 1], Some(live), bytes); }
      case RedoCall =>
        RedoIsRestore(s, bytes);
        if Redo(s, bytes).Some? { RestoreAscends(s, RedoList(s)[0], None, bytes); }
      case RestoreCall(target, live) => if Restore(s, target, live, bytes).Some? { RestoreAscends(s, target, live, bytes); }
      case RestoreEntryCall(id, after, live) =>
        if RestoreEntry(s, id, after, live, bytes).Some? {
          var e := EntryById(s.entries, id).value;
          RestoreAscends(s, if after then e.after else e.before, live, bytes);
        }
      case SetByteBudget(budget) =>
        EnforceAscends(s.(budget := budget), bytes, false);
        EnforceKeepsRest(s.(budget := budget), bytes, false);
      case CompactEditingSession(sid, title) => MergingAscends(s, sid, title, bytes);
      case CloseEditingSession(sid, title) => MergingAscends(s, sid, title, bytes);
      case ClearCall => assert IdsAscend([], 1) by { NoIds(); }
      case _ =>
    }
  }

  lemma NoIds()
    ensures IdsAscend([], 1)
  {
  }

  /** In every run from an empty history no two listed entries have the same id, so that a jump by
      id means one entry. */
  lemma {:induction false} EntryIdsStayDistinct(s: Timeline, calls: seq<Call>, bytes: Timeline -> nat)
    requires Inv(s) && IdsAscend(s.entries, s.nextEntry)
    ensures var u := Run(s, calls, bytes); Inv(u) && IdsAscend(u.entries, u.nextEntry)
    decreases |calls|
  {
    hide Inv, Step, Forward, IdsAscend;
    if calls != [] {
      EdgesPointForward(s);
      StepKeeps(s, calls[0], bytes);
      StepAscends(s, calls[0], bytes);
      EntryIdsStayDistinct(Step(s, calls[0], bytes), calls[1..], bytes);
    }
  }

  lemma EntryIdsAreUnique(budget: nat, nextSession: nat, calls: seq<Call>, bytes: Timeline -> nat)
    ensures Inv(Empty(budget, nextSession))
    ensures var u := Run(Empty(budget, nextSession), calls, bytes);
            forall i, j | 0 <= i < |u.entries| && 0 <= j < |u.entries| && i != j :: u.entries[i].id != u.entries[j].id
  {
    hide Inv, Run;
    EmptyKeepsInv(budget, nextSession);
    NoIds();
    EntryIdsStayDistinct(Empty(budget, nextSession), calls, bytes);
  }
}
