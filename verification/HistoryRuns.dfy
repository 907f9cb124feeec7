/** Whole runs of the history: any sequence of calls, accepted or refused, under any accounting
    of memory. */
module HistoryRuns {
  import opened Wrappers
  import opened HistoryThreads
  import opened History
  import opened HistorySteps
  import opened HistoryNavigation
  import opened HistoryCompaction

  datatype Call =
    | BeginOperation(title: string, pred: Roots, kind: OperationKind)
    | CommitOperation(succ: Roots)
    | AbortOperation
    | UndoCall(live: Roots)
    | RedoCall
    | RestoreCall(target: nat, optionalLive: Option<Roots>)
    | SetNavigationFloor(floor: Option<nat>)
    | MarkCurrentAsSaved
    | SetByteBudget(budget: nat)
    | BeginEditingSession
    | CompactEditingSession(sid: nat, title: string)
    | CloseEditingSession(sid: nat, title: string)
    | RestoreEntryCall(entryId: nat, after: bool, entryLive: Option<Roots>)
    | RewriteContextsCall(rewrite: Bytes -> Option<Bytes>, cursorContext: Option<Bytes>)
    | ClearCall

  function OrSame(s: Timeline, r: Option<Timeline>): Timeline {
    if r.Some? then r.value else s
  }

  function Landed(s: Timeline, r: Option<(Timeline, Restored)>): Timeline {
    if r.Some? then r.value.0 else s
  }

  function Step(s: Timeline, c: Call, bytes: Timeline -> nat): Timeline
    requires Forward(s.entries)
  {
    match c
    case BeginOperation(title, pred, kind) => OrSame(s, Begin(s, title, pred, kind))
    case CommitOperation(succ) => OrSame(s, Commit(s, succ, bytes))
    case AbortOperation => if Abort(s).Some? then Abort(s).value.0 else s
    case UndoCall(live) => Landed(s, Undo(s, live, bytes))
    case RedoCall => Landed(s, Redo(s, bytes))
    case RestoreCall(target, live) => Landed(s, Restore(s, target, live, bytes))
    case SetNavigationFloor(floor) => OrSame(s, SetFloor(s, floor))
    case MarkCurrentAsSaved => MarkSaved(s)
    case SetByteBudget(budget) => SetBudget(s, budget, bytes)
    case BeginEditingSession => OrSame(s, BeginSession(s))
    case CompactEditingSession(sid, title) => OrSame(s, Compact(s, sid, title, bytes))
    case CloseEditingSession(sid, title) => OrSame(s, Close(s, sid, title, bytes))
    case RestoreEntryCall(id, after, live) => Landed(s, RestoreEntry(s, id, after, live, bytes))
    case RewriteContextsCall(rewrite, cursor) => OrSame(s, RewriteContexts(s, rewrite, cursor))
    case ClearCall => Clear(s)
  }

  /** The model of timestamp `t` is settled as `m`: its archive holds `m` and will not be taken
      back by an abort, or it is gone and the cursor is elsewhere. */
  ghost predicate Frozen(s: Timeline, t: nat, m: Model) {
    && t < s.nextTimestamp
    && if t in s.snapshots
       then s.snapshots[t].model == m && (s.operation.Some? && s.operation.value.before == t ==> s.operation.value.prior.Some?)
       else t != s.current
  }

  ghost predicate StillFrozen(s: Timeline, u: Timeline) {
    forall t: nat, m: Model {:trigger Frozen(u, t, m)} :: Frozen(s, t, m) ==> Frozen(u, t, m)
  }

  lemma NavigationStep(s: Timeline, target: nat, live: Option<Roots>, bytes: Timeline -> nat)
    requires Inv(s) && Restore(s, target, live, bytes).Some?
    ensures var u := Restore(s, target, live, bytes).value.0; Inv(u) && StillFrozen(s, u)
  {
    hide EdgesInv, MarksInv, Capturable, Enforce, ListsTrimmed, Visible;
    var k, m := RestoreMovesAlongLine(s, target, live, bytes);
    EdgesPointForward(s);
    RestoreSucceedsIff(s, target, live, bytes);
  }

  /** Leaving a timestamp settles it as the state it was left in. */
  lemma LeavingSettles(s: Timeline, target: nat, live: Option<Roots>, bytes: Timeline -> nat)
    requires Inv(s) && Restore(s, target, live, bytes).Some? && target != s.current
    ensures CanLeave(s, live)
    ensures Frozen(Restore(s, target, live, bytes).value.0, s.current, AtCursor(s, live).model)
  {
    hide MarksInv, Capturable, Enforce, ListsTrimmed, Visible, Threaded;
    var k, m := RestoreMovesAlongLine(s, target, live, bytes);
    EdgesPointForward(s);
    RestoreSucceedsIff(s, target, live, bytes);
  }

  lemma BeginStep(s: Timeline, title: string, pred: Roots, kind: OperationKind)
    requires Inv(s) && Begin(s, title, pred, kind).Some?
    ensures var u := Begin(s, title, pred, kind).value; Inv(u) && StillFrozen(s, u)
  {
    hide EdgesInv, Capturable, SameShape;
    BeginKeepsInv(s, title, pred, kind);
  }

  lemma CommitStep(s: Timeline, succ: Roots, bytes: Timeline -> nat)
    requires Inv(s) && Commit(s, succ, bytes).Some?
    ensures var u := Commit(s, succ, bytes).value; Inv(u) && StillFrozen(s, u)
  {
    hide Enforce, Append, TruncateRedo, Threaded;
    if s.operation.value.depth == 1 {
      hide EdgesInv, MarksInv;
      var k := CommitExtendsUndo(s, succ, bytes);
    }
  }

  lemma AbortStep(s: Timeline)
    requires Inv(s) && Abort(s).Some?
    ensures var u := Abort(s).value.0; Inv(u) && StillFrozen(s, u)
  {
    hide EdgesInv;
    AbortSucceeds(s);
  }

  lemma SessionStep(s: Timeline, sid: nat, title: string, bytes: Timeline -> nat)
    requires Inv(s) && Closable(s, sid)
    ensures var u := Compact(s, sid, title, bytes).value; Inv(u) && StillFrozen(s, u)
    ensures var u := Close(s, sid, title, bytes).value; Inv(u) && StillFrozen(s, u)
  {
    hide EdgesInv, MarksInv, Compact, Close;
    assert Compact(s, sid, title, bytes).Some? && Close(s, sid, title, bytes).Some? by { SessionCallsSucceed(s, sid, title, bytes); }
    SessionCallsSucceed(s, sid, title, bytes);
    var k := CompactHidesInside(s, sid, title, bytes);
    var k' := CloseHidesInside(s, sid, title, bytes);
  }

  lemma SessionCallsSucceed(s: Timeline, sid: nat, title: string, bytes: Timeline -> nat)
    requires Inv(s) && Closable(s, sid)
    ensures Compact(s, sid, title, bytes).Some? && Close(s, sid, title, bytes).Some?
    ensures Compact(s, sid, title, bytes).value.nextTimestamp == s.nextTimestamp
    ensures Close(s, sid, title, bytes).value.nextTimestamp == s.nextTimestamp
    ensures Compact(s, sid, title, bytes).value.operation == None
    ensures Close(s, sid, title, bytes).value.operation == None
  {
    hide EdgesInv, MarksInv, MergeRuns, InsideRuns, AppliedCount, Enforce;
    var merged := MergeSession(s, title);
    MergeKeepsInv(s, title);
    var k, m := EnforceTrims(merged, bytes, true);
    var effective := s.session.value.effective;
    if effective {
      TruncateKeepsInv(merged);
    }
    var cut := if effective then TruncateRedo(merged) else merged;
    EndSessionKeepsLists(cut);
    k, m := EnforceTrims(EndSession(cut), bytes, !effective);
  }

  lemma MarkerStep(s: Timeline, c: Call, bytes: Timeline -> nat)
    requires Inv(s)
    requires c.SetNavigationFloor? || c.MarkCurrentAsSaved? || c.BeginEditingSession? || c.SetByteBudget?
    ensures Inv(Step(s, c, bytes)) && StillFrozen(s, Step(s, c, bytes))
  {
    hide Threaded, Enforce;
    if c.SetByteBudget? {
      var k, m := EnforceTrims(s.(budget := c.budget), bytes, false);
    }
  }

  lemma RewriteIsPointwise(s: Timeline, rewrite: Bytes -> Option<Bytes>, cursor: Option<Bytes>)
    requires RewriteContexts(s, rewrite, cursor).Some?
    ensures var u := RewriteContexts(s, rewrite, cursor).value;
            && u == s.(snapshots := u.snapshots, operation := u.operation)
            && u.snapshots.Keys == s.snapshots.Keys
            && (forall t <- s.snapshots :: Rebound(s, t, rewrite, cursor).Some?
                  && u.snapshots[t] == Bind(s.snapshots[t], Rebound(s, t, rewrite, cursor).value))
            && (s.operation.Some? && s.operation.value.prior.Some? ==>
                  var prior := s.operation.value.prior.value;
                  && rewrite(prior.context.historyContext).Some?
                  && u.operation == Some(s.operation.value.(prior := Some(Bind(prior, rewrite(prior.context.historyContext).value)))))
            && (s.operation.None? || s.operation.value.prior.None? ==> u.operation == s.operation)
  {
  }

  /** Rewriting contexts changes nothing but contexts: topology, markers and models stay. */
  lemma RewriteStep(s: Timeline, rewrite: Bytes -> Option<Bytes>, cursor: Option<Bytes>)
    requires Inv(s) && RewriteContexts(s, rewrite, cursor).Some?
    ensures var u := RewriteContexts(s, rewrite, cursor).value;
            && Inv(u) && StillFrozen(s, u)
            && u == s.(snapshots := u.snapshots, operation := u.operation)
            && u.snapshots.Keys == s.snapshots.Keys
            && (forall t <- s.snapshots :: u.snapshots[t].model == s.snapshots[t].model)
            && (u.operation.Some? <==> s.operation.Some?)
  {
    hide Threaded, RewriteContexts, Rebound;
    RewriteIsPointwise(s, rewrite, cursor);
    var u := RewriteContexts(s, rewrite, cursor).value;
    assert EdgesInv(u) by { hide MarksInv; }
    assert MarksInv(u) by { hide EdgesInv; }
  }

  /** Giving up an operation cannot bring back a context that was rewritten while it was open:
      rewriting first and giving up then ends where giving up first and rewriting then does. */
  lemma RewriteCommutesWithAbort(s: Timeline, rewrite: Bytes -> Option<Bytes>, cursor: Option<Bytes>)
    requires Inv(s) && s.operation.Some? && RewriteContexts(s, rewrite, cursor).Some?
    ensures Abort(RewriteContexts(s, rewrite, cursor).value).Some? && Abort(s).Some?
    ensures RewriteContexts(Abort(s).value.0, rewrite, None) == Some(Abort(RewriteContexts(s, rewrite, cursor).value).value.0)
  {
    hide EdgesInv, RewriteContexts;
    var op, u, v := s.operation.value, RewriteContexts(s, rewrite, cursor).value, Abort(s).value.0;
    RewriteStep(s, rewrite, cursor);
    RewriteIsPointwise(s, rewrite, cursor);
    var w := Abort(u).value.0;
    assert w.snapshots.Keys == v.snapshots.Keys;
    forall t | t in v.snapshots
      ensures Rebound(v, t, rewrite, None).Some? && w.snapshots[t] == Bind(v.snapshots[t], Rebound(v, t, rewrite, None).value)
    {
      if t == op.before {
        assert op.prior.Some? && v.snapshots[t] == op.prior.value;
      } else {
        assert Rebound(s, t, rewrite, cursor) == Rebound(v, t, rewrite, None);
      }
    }
    RewriteWithoutOperation(v, w, rewrite);
  }

  lemma RewriteWithoutOperation(v: Timeline, w: Timeline, rewrite: Bytes -> Option<Bytes>)
    requires v.operation.None? && w == v.(snapshots := w.snapshots) && w.snapshots.Keys == v.snapshots.Keys
    requires forall t <- v.snapshots :: Rebound(v, t, rewrite, None).Some?
               && w.snapshots[t] == Bind(v.snapshots[t], Rebound(v, t, rewrite, None).value)
    ensures RewriteContexts(v, rewrite, None) == Some(w)
  {
    hide Rebound, Bind;
    assert RewriteContexts(v, rewrite, None).value.snapshots == w.snapshots;
  }

  /** One call keeps the invariant, and only `ClearCall` changes the model of a settled timestamp. */
  lemma StepKeeps(s: Timeline, c: Call, bytes: Timeline -> nat)
    requires Inv(s)
    ensures Inv(Step(s, c, bytes)) && (!c.ClearCall? ==> StillFrozen(s, Step(s, c, bytes)))
  {
    hide EdgesInv, MarksInv, StillFrozen, Begin, Commit, Abort, Restore, SetFloor, SetBudget, BeginSession, RewriteContexts, EntryById;
    EdgesPointForward(s);
    StaysFrozen(s);
    match c {
      case BeginOperation(title, pred, kind) => if Begin(s, title, pred, kind).Some? { BeginStep(s, title, pred, kind); }
      case CommitOperation(succ) => if Commit(s, succ, bytes).Some? { CommitStep(s, succ, bytes); }
      case AbortOperation => if Abort(s).Some? { AbortStep(s); }
      case UndoCall(live) =>
        UndoIsRestore(s, live, bytes);
        if Undo(s, live, bytes).Some? { NavigationStep(s, UndoList(s)[|UndoList(s)| - 1], Some(live), bytes); }
      case RedoCall =>
        RedoIsRestore(s, bytes);
        if Redo(s, bytes).Some? { NavigationStep(s, RedoList(s)[0], None, bytes); }
      case RestoreCall(target, live) => if Restore(s, target, live, bytes).Some? { NavigationStep(s, target, live, bytes); }
      case RestoreEntryCall(id, after, live) =>
        if RestoreEntry(s, id, after, live, bytes).Some? {
          var e := EntryById(s.entries, id).value;
          NavigationStep(s, if after then e.after else e.before, live, bytes);
        }
      case CompactEditingSession(sid, title) => if Closable(s, sid) { SessionStep(s, sid, title, bytes); }
      case CloseEditingSession(sid, title) => if Closable(s, sid) { SessionStep(s, sid, title, bytes); }
      case RewriteContextsCall(rewrite, cursor) => if RewriteContexts(s, rewrite, cursor).Some? { RewriteStep(s, rewrite, cursor); }
      case ClearCall => EmptyKeepsInv(s.budget, s.nextSession);
      case _ => MarkerStep(s, c, bytes);
    }
  }

  lemma StaysFrozen(s: Timeline)
    ensures StillFrozen(s, s)
  {
  }

  lemma EmptyKeepsInv(budget: nat, nextSession: nat)
    ensures Inv(Empty(budget, nextSession))
  {
  }

  ghost function Run(s: Timeline, calls: seq<Call>, bytes: Timeline -> nat): Timeline
    requires Inv(s)
    decreases |calls|
  {
    if calls == [] then s
    else
      StepKeeps(s, calls[0], bytes);
      Run(Step(s, calls[0], bytes), calls[1..], bytes)
  }

  /** After any calls but `ClearCall`, a restore of a timestamp that was once settled returns
      exactly the model it was settled with, or is refused. */
  lemma {:induction false} SettledModelsNeverChange(s: Timeline, calls: seq<Call>, t: nat, m: Model, live: Option<Roots>, bytes: Timeline -> nat)
    requires Inv(s) && Frozen(s, t, m)
    requires forall i | 0 <= i < |calls| :: !calls[i].ClearCall?
    ensures var u := Run(s, calls, bytes);
            && Inv(u) && Frozen(u, t, m)
            && (Restore(u, t, live, bytes).Some? ==> Restore(u, t, live, bytes).value.1.snapshot.model == m)
    decreases |calls|
  {
    hide EdgesInv, MarksInv;
    if calls == [] {
      EdgesPointForward(s);
      if Restore(s, t, live, bytes).Some? {
        hide Restore, ListsTrimmed, Visible;
        var k, m := RestoreMovesAlongLine(s, t, live, bytes);
        TargetIsAvailable(s, t, live, bytes);
      }
    } else {
      hide Restore, Step;
      StepKeeps(s, calls[0], bytes);
      EdgesPointForward(s);
      SettledModelsNeverChange(Step(s, calls[0], bytes), calls[1..], t, m, live, bytes);
    }
  }

  /** Clearing unsettles every timestamp. */
  lemma ClearUnsettles(s: Timeline, t: nat, m: Model)
    requires Inv(s)
    ensures Inv(Clear(s)) && !Frozen(Clear(s), t, m)
  {
    EmptyKeepsInv(s.budget, s.nextSession);
  }

  lemma TargetIsAvailable(s: Timeline, target: nat, live: Option<Roots>, bytes: Timeline -> nat)
    requires Inv(s) && Restore(s, target, live, bytes).Some?
    ensures target in Available(s)
  {
  }
}
