/** The history object itself. Its methods stage a copy of the timeline, work on it step by step
    and publish it whole; each is proved to take the timeline where the corresponding function
    of the model takes it. */
module TimestampedHistoryClass {
  import opened Wrappers
  import opened HistoryThreads
  import opened History
  import opened HistorySteps
  import opened HistoryNavigation
  import opened HistoryCompaction
  import opened HistoryRuns

  class TimestampedHistory {
    var impl: Timeline
    /** The memory accounting. Nothing is assumed about it. */
    const bytesUsed: Timeline -> nat

    constructor (budget: nat, bytesUsed: Timeline -> nat)
      ensures impl == Empty(budget, 1) && Inv(impl) && this.bytesUsed == bytesUsed
    {
      this.impl := Empty(budget, 1);
      this.bytesUsed := bytesUsed;
      new;
      EmptyKeepsInv(budget, 1);
    }

    /** Starts over; session ids keep counting so that an old one is never handed out again. */
    method Clear()
      modifies this`impl
      ensures impl == Empty(old(impl.budget), old(impl.nextSession)) == HistorySteps.Clear(old(impl)) && Inv(impl)
    {
      impl := Empty(impl.budget, impl.nextSession);
      EmptyKeepsInv(impl.budget, impl.nextSession);
    }

    /** The first archive in timestamp order that may be evicted. */
    method FindCandidate(staged: Timeline, preserveRedo: bool) returns (candidate: Option<nat>)
      ensures candidate == Candidate(staged, preserveRedo, 0)
    {
      var guarded := Protected(staged);
      var t := 0;
      while t < staged.nextTimestamp
        invariant Candidate(staged, preserveRedo, t) == Candidate(staged, preserveRedo, 0)
        decreases staged.nextTimestamp - t
      {
        if t in staged.snapshots && t !in guarded && (!preserveRedo || t <= staged.current) {
          return Some(t);
        }
        t := t + 1;
      }
      return None;
    }

    method EnforceBudget(start: Timeline, preserveRedo: bool) returns (staged: Timeline)
      ensures staged == Enforce(start, bytesUsed, preserveRedo)
    {
      staged := start;
      while bytesUsed(staged) > staged.budget
        invariant Enforce(staged, bytesUsed, preserveRedo) == Enforce(start, bytesUsed, preserveRedo)
        decreases |staged.snapshots|
      {
        var candidate := FindCandidate(staged, preserveRedo);
        if candidate.None? {
          break;
        }
        EvictShrinks(staged, preserveRedo, candidate.value);
        staged := Erase(staged, {candidate.value});
        staged := PruneEntries(staged);
      }
    }

    /** Walks the edges from the cursor to `target`, gathering their deltas. */
    method CollectSceneDelta(staged: Timeline, target: nat) returns (result: Option<SceneDelta>)
      requires Forward(staged.entries)
      ensures result == Collect(staged.entries, staged.current, target)
    {
      ghost var whole := Collect(staged.entries, staged.current, target);
      var gathered: SceneDelta, cursor: nat := EMPTY_DELTA, staged.current;
      if whole.Some? {
        MergeIsMonoid(whole.value, EMPTY_DELTA, EMPTY_DELTA);
      }
      while cursor != target
        invariant whole == Prefixed(gathered, Collect(staged.entries, cursor, target))
        decreases if target < cursor then cursor - target else target - cursor
      {
        var found := if target < cursor then UndoEntry(staged.entries, cursor) else RedoEntry(staged.entries, cursor);
        if found.None? || (if target < cursor then found.value.before < target else found.value.after > target) {
          return None;
        }
        var next := if target < cursor then found.value.before else found.value.after;
        var rest := Collect(staged.entries, next, target);
        if rest.Some? {
          MergeIsMonoid(gathered, found.value.delta, rest.value);
        }
        gathered, cursor := Merge(gathered, found.value.delta), next;
      }
      MergeIsMonoid(gathered, EMPTY_DELTA, EMPTY_DELTA);
      return Some(gathered);
    }

    /** Merges every run of session paint among the first `applied` edges, and lists the
        timestamps inside the runs. */
    method MergePaintRuns(entries: seq<Entry>, applied: nat, sid: nat, title: string)
      returns (compacted: seq<Entry>, intermediate: set<nat>)
      requires applied <= |entries|
      ensures compacted == MergeRuns(entries, applied, sid, title)
      ensures intermediate == InsideRuns(entries, applied, sid, title)
    {
      hide MergeRuns, InsideRuns;
      ghost var merged, inner := MergeRuns(entries, applied, sid, title), InsideRuns(entries, applied, sid, title);
      compacted, intermediate := [], {};
      var first := 0;
      assert entries[0..] == entries;
      while first < applied
        invariant first <= applied
        invariant compacted + MergeRuns(entries[first..], applied - first, sid, title) == merged
        invariant intermediate + InsideRuns(entries[first..], applied - first, sid, title) == inner
        decreases applied - first
      {
        var combined, last, inside := MergeOneRun(entries, first, applied, sid, title);
        Regrouped(compacted, combined, MergeRuns(entries[last + 1..], applied - last - 1, sid, title));
        compacted, intermediate := compacted + [combined], intermediate + inside;
        first := last + 1;
      }
      NothingApplied(entries[first..], sid, title);
      compacted := compacted + entries[first..];
    }

    /** Merges the longest run of session paint that starts at `first`. */
    method MergeOneRun(entries: seq<Entry>, first: nat, applied: nat, sid: nat, title: string)
      returns (combined: Entry, last: nat, inside: set<nat>)
      requires first < applied <= |entries|
      ensures first <= last < applied
      ensures MergeRuns(entries[first..], applied - first, sid, title)
              == [combined] + MergeRuns(entries[last + 1..], applied - last - 1, sid, title)
      ensures InsideRuns(entries[first..], applied - first, sid, title)
              == inside + InsideRuns(entries[last + 1..], applied - last - 1, sid, title)
    {
      hide MergeRuns, InsideRuns;
      combined, last, inside := entries[first], first, {};
      ghost var start := entries[first..];
      ghost var tail := [combined] + entries[last + 1..];
      assert tail == start;
      while last + 1 < applied && Mergeable(combined, entries[last + 1], sid)
        invariant first <= last < applied && tail == [combined] + entries[last + 1..]
        invariant MergeRuns(start, applied - first, sid, title) == MergeRuns(tail, applied - last, sid, title)
        invariant InsideRuns(start, applied - first, sid, title) == inside + InsideRuns(tail, applied - last, sid, title)
        decreases applied - last
      {
        assert tail[2..] == entries[last + 2..];
        UnfoldMerge(tail, entries[last + 2..], applied - last, sid, title);
        inside := inside + {combined.after};
        combined := Combine(combined, entries[last + 1], title);
        last := last + 1;
        tail := [combined] + entries[last + 1..];
      }
      assert tail[1..] == entries[last + 1..];
      UnfoldKeep(tail, entries[last + 1..], applied - last, sid, title);
    }

    /** The staged part of compaction. */
    method MergeStaged(start: Timeline, title: string) returns (staged: Timeline, inside: set<nat>)
      requires start.session.Some?
      ensures staged == MergeSession(start, title)
      ensures inside == InsideRuns(start.entries, AppliedCount(start.entries, start.current), start.session.value.id, title)
    {
      var applied := AppliedCount(start.entries, start.current);
      var merged;
      merged, inside := MergePaintRuns(start.entries, applied, start.session.value.id, title);
      staged := start.(entries := merged);
      staged := Erase(staged, Unreferenced(start, merged, inside));
    }

    method BeginOperation(title: string, pred: Roots, kind: OperationKind) returns (ok: bool)
      requires Inv(impl)
      modifies this`impl
      ensures ok <==> Begin(old(impl), title, pred, kind).Some?
      ensures impl == OrSame(old(impl), Begin(old(impl), title, pred, kind)) && Inv(impl)
    {
      if impl.operation.Some? {
        BeginKeepsInv(impl, title, pred, kind);
        impl := impl.(operation := Some(impl.operation.value.(depth := impl.operation.value.depth + 1)));
        return true;
      }
      var staged := impl;
      var prior := None;
      if staged.current !in staged.snapshots {
        var captured := CaptureTop(staged, pred);
        if captured.None? {
          return false;
        }
        staged := captured.value;
      } else {
        prior := Some(staged.snapshots[staged.current]);
        if !SameShape(prior.value.model, pred.model) {
          return false;
        }
        staged := staged.(snapshots := staged.snapshots[staged.current := prior.value.(context := pred.context)]);
      }
      var sid := if staged.session.Some? then staged.session.value.id else 0;
      staged := staged.(operation := Some(Operation(title, staged.current, 1, prior, pred.model.objects, pred.scenePlates, kind, sid)));
      BeginKeepsInv(impl, title, pred, kind);
      impl := staged;
      return true;
    }

    method CommitOperation(succ: Roots) returns (ok: bool)
      requires Inv(impl)
      modifies this`impl
      ensures ok <==> old(impl).operation.Some?
      ensures impl == OrSame(old(impl), Commit(old(impl), succ, bytesUsed)) && Inv(impl)
    {
      if impl.operation.None? {
        return false;
      }
      CommitStep(impl, succ, bytesUsed);
      if impl.operation.value.depth > 1 {
        impl := impl.(operation := Some(impl.operation.value.(depth := impl.operation.value.depth - 1)));
        return true;
      }
      var operation := impl.operation.value;
      var staged := TruncateRedo(impl.(operation := None));
      staged := Append(staged, operation, succ);
      staged := EnforceBudget(staged, false);
      impl := staged;
      return true;
    }

    method AbortOperation() returns (predecessor: Option<Snapshot>)
      requires Inv(impl)
      modifies this`impl
      ensures predecessor.Some? <==> old(impl).operation.Some?
      ensures predecessor.Some? ==> Abort(old(impl)) == Some((impl, predecessor.value))
      ensures predecessor.None? ==> impl == old(impl)
      ensures Inv(impl)
    {
      if impl.operation.None? {
        return None;
      }
      AbortSucceeds(impl);
      var operation := impl.operation.value;
      var restored := impl.snapshots[operation.before];
      impl := impl.(operation := None);
      if operation.prior.Some? {
        impl := impl.(snapshots := impl.snapshots[operation.before := operation.prior.value]);
      } else {
        impl := impl.(snapshots := impl.snapshots - {operation.before});
      }
      return Some(restored);
    }

    method RestoreTo(target: nat, live: Option<Roots>) returns (result: Option<Restored>)
      requires Inv(impl)
      modifies this`impl
      ensures EdgesPointForwardIn(old(impl))
      ensures result == Returned(Restore(old(impl), target, live, bytesUsed))
      ensures impl == Landed(old(impl), Restore(old(impl), target, live, bytesUsed)) && Inv(impl)
    {
      hide EdgesInv, MarksInv, Enforce, Threaded, Capturable;
      EdgesPointForward(impl);
      RestoreSucceedsIff(impl, target, live, bytesUsed);
      if Restore(impl, target, live, bytesUsed).Some? {
        NavigationStep(impl, target, live, bytesUsed);
      }
      if impl.operation.Some? {
        return None;
      }
      if BelowFloor(impl, target) || target !in Available(impl) {
        return None;
      }
      var delta := CollectSceneDelta(impl, target);
      if delta.None? {
        return None;
      }
      if impl.current !in impl.snapshots {
        if live.None? {
          return None;
        }
        var captured := CaptureTop(impl, live.value);
        if captured.None? {
          return None;
        }
        impl := captured.value;
      }
      result := Some(Load(impl, target, delta.value));
      var moved := impl.(current := target);
      impl := EnforceBudget(moved, false);
    }

    method UndoStep(live: Roots) returns (result: Option<Restored>)
      requires Inv(impl)
      modifies this`impl
      ensures EdgesPointForwardIn(old(impl))
      ensures result == Returned(Undo(old(impl), live, bytesUsed))
      ensures impl == Landed(old(impl), Undo(old(impl), live, bytesUsed)) && Inv(impl)
    {
      hide EdgesInv, MarksInv, Enforce, Restore, Threaded, Capturable;
      EdgesPointForward(impl);
      UndoIsRestore(impl, live, bytesUsed);
      if impl.operation.Some? {
        return None;
      }
      var entry := UndoEntry(impl.entries, impl.current);
      if entry.None? || BelowFloor(impl, entry.value.before) {
        return None;
      }
      var captured := CaptureTop(impl, live);
      if captured.None? {
        return None;
      }
      CapturedUndo(impl, live, bytesUsed);
      impl := captured.value;
      result := RestoreTo(entry.value.before, Some(live));
    }

    method RedoStep() returns (result: Option<Restored>)
      requires Inv(impl)
      modifies this`impl
      ensures EdgesPointForwardIn(old(impl))
      ensures result == Returned(Redo(old(impl), bytesUsed))
      ensures impl == Landed(old(impl), Redo(old(impl), bytesUsed)) && Inv(impl)
    {
      hide EdgesInv, MarksInv, Enforce, Restore, Threaded;
      EdgesPointForward(impl);
      if impl.operation.Some? {
        return None;
      }
      var entry := RedoEntry(impl.entries, impl.current);
      if entry.None? {
        return None;
      }
      result := RestoreTo(entry.value.after, None);
    }

    /** The first entry with the id. */
    method FindEntry(id: nat) returns (found: Option<Entry>)
      ensures found == EntryById(impl.entries, id)
    {
      var i := 0;
      while i < |impl.entries|
        invariant i <= |impl.entries| && EntryById(impl.entries[i..], id) == EntryById(impl.entries, id)
      {
        if impl.entries[i].id == id {
          return Some(impl.entries[i]);
        }
        assert impl.entries[i..][1..] == impl.entries[i + 1..];
        i := i + 1;
      }
      return None;
    }

    method RestoreBefore(id: nat, live: Option<Roots>) returns (result: Option<Restored>)
      requires Inv(impl)
      modifies this`impl
      ensures EdgesPointForwardIn(old(impl))
      ensures result == Returned(RestoreEntry(old(impl), id, false, live, bytesUsed))
      ensures impl == Landed(old(impl), RestoreEntry(old(impl), id, false, live, bytesUsed)) && Inv(impl)
    {
      hide Inv, Restore, EntryById;
      EdgesPointForward(impl);
      var found := FindEntry(id);
      if found.None? {
        return None;
      }
      result := RestoreTo(found.value.before, live);
    }

    method RestoreAfter(id: nat, live: Option<Roots>) returns (result: Option<Restored>)
      requires Inv(impl)
      modifies this`impl
      ensures EdgesPointForwardIn(old(impl))
      ensures result == Returned(RestoreEntry(old(impl), id, true, live, bytesUsed))
      ensures impl == Landed(old(impl), RestoreEntry(old(impl), id, true, live, bytesUsed)) && Inv(impl)
    {
      hide Inv, Restore, EntryById;
      EdgesPointForward(impl);
      var found := FindEntry(id);
      if found.None? {
        return None;
      }
      result := RestoreTo(found.value.after, live);
    }

    /** Rebinds every retained archive to a rewritten repository context, in timestamp order. */
    method RebindArchives(rewrite: Bytes -> Option<Bytes>, cursorContext: Option<Bytes>) returns (result: Option<map<nat, Snapshot>>)
      requires forall t <- impl.snapshots :: t < impl.nextTimestamp
      ensures result.Some? <==> forall t <- impl.snapshots :: Rebound(impl, t, rewrite, cursorContext).Some?
      ensures result.Some? ==> result.value.Keys == impl.snapshots.Keys
      ensures result.Some? ==> forall t <- impl.snapshots ::
                result.value[t] == Bind(impl.snapshots[t], Rebound(impl, t, rewrite, cursorContext).value)
    {
      hide Bind;
      var snapshots, t := impl.snapshots, 0;
      while t < impl.nextTimestamp
        invariant t <= impl.nextTimestamp && snapshots.Keys == impl.snapshots.Keys
        invariant forall u <- impl.snapshots :: u < t ==>
                    && Rebound(impl, u, rewrite, cursorContext).Some?
                    && snapshots[u] == Bind(impl.snapshots[u], Rebound(impl, u, rewrite, cursorContext).value)
        invariant forall u <- impl.snapshots :: t <= u ==> snapshots[u] == impl.snapshots[u]
      {
        if t in snapshots {
          var context := if cursorContext.Some? && t == impl.current then cursorContext
                         else rewrite(snapshots[t].context.historyContext);
          if context.None? {
            return None;
          }
          snapshots := snapshots[t := Bind(snapshots[t], context.value)];
        }
        t := t + 1;
      }
      return Some(snapshots);
    }

    /** Rebinds the archives and the one an open operation would fall back to; a failing rewrite
        publishes nothing. */
    method Rebind(rewrite: Bytes -> Option<Bytes>, cursorContext: Option<Bytes>) returns (ok: bool)
      requires Inv(impl)
      modifies this`impl
      ensures ok <==> RewriteContexts(old(impl), rewrite, cursorContext).Some?
      ensures impl == OrSame(old(impl), RewriteContexts(old(impl), rewrite, cursorContext)) && Inv(impl)
    {
      hide Threaded, MarksInv, Rebound, Bind;
      assert EdgesInv(impl);
      var archives := RebindArchives(rewrite, cursorContext);
      hide EdgesInv;
      if archives.None? {
        return false;
      }
      var staged := impl.(snapshots := archives.value);
      assert archives.value == map t <- impl.snapshots :: Bind(impl.snapshots[t], Rebound(impl, t, rewrite, cursorContext).value);
      if impl.operation.Some? && impl.operation.value.prior.Some? {
        var prior := impl.operation.value.prior.value;
        var context := rewrite(prior.context.historyContext);
        if context.None? {
          return false;
        }
        staged := staged.(operation := Some(impl.operation.value.(prior := Some(Bind(prior, context.value)))));
      }
      RewriteStep(impl, rewrite, cursorContext);
      impl := staged;
      return true;
    }

    method OpenEditingSession() returns (ok: bool)
      requires Inv(impl)
      modifies this`impl
      ensures ok <==> BeginSession(old(impl)).Some?
      ensures impl == OrSame(old(impl), BeginSession(old(impl))) && Inv(impl)
    {
      if impl.operation.Some? || impl.session.Some? || impl.nextSession == 0 {
        return false;
      }
      if impl.floor.Some? && impl.floor.value != impl.current {
        return false;
      }
      hide EdgesInv, MarksInv;
      EdgesPointForward(impl);
      MarkerStep(impl, HistoryRuns.BeginEditingSession, bytesUsed);
      var id := impl.nextSession;
      impl := impl.(session := Some(Session(id, impl.current, false)),
                    floor := Some(impl.current),
                    nextSession := if id == LAST_SESSION then 0 else id + 1);
      return true;
    }

    method CompactSession(sid: nat, title: string) returns (ok: bool)
      requires Inv(impl)
      modifies this`impl
      ensures ok <==> Closable(old(impl), sid)
      ensures impl == OrSame(old(impl), Compact(old(impl), sid, title, bytesUsed)) && Inv(impl)
    {
      hide EdgesInv, MarksInv, MergeSession, Enforce;
      if !Closable(impl, sid) {
        return false;
      }
      SessionStep(impl, sid, title, bytesUsed);
      var staged, inside := MergeStaged(impl, title);
      if inside != {} {
        impl := EnforceBudget(staged, true);
      }
      return true;
    }

    method CloseSession(sid: nat, title: string) returns (ok: bool)
      requires Inv(impl)
      modifies this`impl
      ensures ok <==> Closable(old(impl), sid)
      ensures impl == OrSame(old(impl), Close(old(impl), sid, title, bytesUsed)) && Inv(impl)
    {
      hide EdgesInv, MarksInv, MergeSession, Enforce;
      if !Closable(impl, sid) {
        return false;
      }
      SessionStep(impl, sid, title, bytesUsed);
      var staged, inside := MergeStaged(impl, title);
      var effective := impl.session.value.effective;
      if effective {
        staged := TruncateRedo(staged);
      }
      staged := staged.(floor := None, session := None);
      impl := EnforceBudget(staged, !effective);
      return true;
    }

    method SetByteBudget(budget: nat)
      requires Inv(impl)
      modifies this`impl
      ensures impl == SetBudget(old(impl), budget, bytesUsed) && Inv(impl)
    {
      hide EdgesInv, MarksInv, Enforce;
      EdgesPointForward(impl);
      MarkerStep(impl, HistoryRuns.SetByteBudget(budget), bytesUsed);
      impl := impl.(budget := budget);
      impl := EnforceBudget(impl, false);
    }

    method MarkCurrentAsSaved()
      requires Inv(impl)
      modifies this`impl
      ensures impl == MarkSaved(old(impl)) && Inv(impl) && !Modified(impl)
    {
      hide EdgesInv, MarksInv;
      EdgesPointForward(impl);
      MarkerStep(impl, HistoryRuns.MarkCurrentAsSaved, bytesUsed);
      impl := impl.(saved := Some(impl.current), savedEvicted := false);
    }
  }

  ghost predicate EdgesPointForwardIn(s: Timeline) {
    Forward(s.entries)
  }

  lemma Regrouped(front: seq<Entry>, e: Entry, rest: seq<Entry>)
    ensures front + ([e] + rest) == front + [e] + rest
  {
  }

  lemma NothingApplied(es: seq<Entry>, sid: nat, title: string)
    ensures MergeRuns(es, 0, sid, title) == es && InsideRuns(es, 0, sid, title) == {}
  {
  }

  lemma UnfoldMerge(tail: seq<Entry>, rest: seq<Entry>, n: nat, sid: nat, title: string)
    requires 2 <= n <= |tail| && tail[2..] == rest && Mergeable(tail[0], tail[1], sid)
    ensures MergeRuns(tail, n, sid, title) == MergeRuns([Combine(tail[0], tail[1], title)] + rest, n - 1, sid, title)
    ensures InsideRuns(tail, n, sid, title) == {tail[0].after} + InsideRuns([Combine(tail[0], tail[1], title)] + rest, n - 1, sid, title)
  {
  }

  lemma UnfoldKeep(tail: seq<Entry>, rest: seq<Entry>, n: nat, sid: nat, title: string)
    requires 1 <= n <= |tail| && tail[1..] == rest && (n >= 2 ==> !Mergeable(tail[0], tail[1], sid))
    ensures MergeRuns(tail, n, sid, title) == [tail[0]] + MergeRuns(rest, n - 1, sid, title)
    ensures InsideRuns(tail, n, sid, title) == InsideRuns(rest, n - 1, sid, title)
  {
  }

  /** What is gathered so far, followed by the rest of the walk. */
  function Prefixed(gathered: SceneDelta, rest: Option<SceneDelta>): Option<SceneDelta> {
    if rest.None? then None else Some(Merge(gathered, rest.value))
  }

  function Returned(r: Option<(Timeline, Restored)>): Option<Restored> {
    if r.Some? then Some(r.value.1) else None
  }

  /** Archiving the cursor first makes no difference to an Undo that is otherwise possible. */
  lemma CapturedUndo(s: Timeline, live: Roots, bytes: Timeline -> nat)
    requires Inv(s) && s.operation.None? && UndoEntry(s.entries, s.current).Some?
    requires !BelowFloor(s, UndoEntry(s.entries, s.current).value.before) && CaptureTop(s, live).Some?
    ensures var c := CaptureTop(s, live).value;
            && Inv(c) && Forward(c.entries)
            && Restore(c, UndoEntry(s.entries, s.current).value.before, Some(live), bytes).Some?
  {
    hide Threaded, Capturable, Enforce, Past, Future;
    var e, c := UndoEntry(s.entries, s.current).value, CaptureTop(s, live).value;
    assert CanLeave(s, Some(live));
    assert s.current in s.snapshots ==> s.snapshots[s.current := s.snapshots[s.current]] == s.snapshots;
    MovedKeepsInv(s, s.current, Some(live));
    assert c == Moved(s, s.current, Some(live));
    RestoreSucceedsIff(c, e.before, Some(live), bytes);
    EdgesPointForward(c);
    LastUndoIsVisible(c);
  }

  lemma LastUndoIsVisible(s: Timeline)
    requires Inv(s)
    ensures UndoEntry(s.entries, s.current).Some? ==> UndoEntry(s.entries, s.current).value.before in Visible(s)
  {
    hide Threaded, MarksInv;
    if UndoEntry(s.entries, s.current).Some? {
      var P := UndoList(s);
      assert P[|P| - 1] in P;
    }
  }
}
