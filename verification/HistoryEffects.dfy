/** When each call is accepted and what it leaves behind, record by record: stated on the fields of
    the timeline and the two lists, without the helpers the calls are made of. */
module HistoryEffects {
  import opened Wrappers
  import opened HistoryThreads
  import opened History
  import opened HistorySteps
  import opened HistoryNavigation
  import opened HistoryCompaction
  import opened HistoryPaintRuns
  import opened HistoryDeltas

  // ---------- opening an operation ----------

  /** An operation can be opened at an archived cursor if and only if the live model has the same
      objects and meshes in the same order, by identity, version, parts and transforms; their
      bytes, the manifest and the native meshes may differ. At a cursor without an archive it can
      be opened if and only if the live model can be told apart by ids and keys. */
  lemma BeginSucceedsIff(s: Timeline, title: string, pred: Roots, kind: OperationKind)
    requires s.operation.None?
    ensures Begin(s, title, pred, kind).Some? <==>
              var live := pred.model;
              if s.current in s.snapshots then
                var kept := s.snapshots[s.current].model;
                && |kept.objects| == |live.objects| && |kept.meshes| == |live.meshes|
                && (forall i | 0 <= i < |live.objects| ::
                      var k, l := kept.objects[i], live.objects[i];
                      && k.id == l.id && k.timestamp == l.timestamp
                      && k.volumeIds == l.volumeIds && k.instanceIds == l.instanceIds
                      && k.volumeTransforms == l.volumeTransforms && k.instanceTransforms == l.instanceTransforms)
                && (forall i | 0 <= i < |live.meshes| :: kept.meshes[i].key == live.meshes[i].key)
              else
                && (forall i | 0 <= i < |live.objects| :: live.objects[i].id != 0)
                && (forall i, j | 0 <= i < j < |live.objects| :: live.objects[i].id != live.objects[j].id)
                && (forall i, j | 0 <= i < j < |live.meshes| :: live.meshes[i].key != live.meshes[j].key)
  {
    if s.current in s.snapshots {
      var kept, live := s.snapshots[s.current].model, pred.model;
      if |kept.objects| == |live.objects| {
        forall i | 0 <= i < |live.objects|
          ensures kept.objects[i].(data := live.objects[i].data) == live.objects[i] <==>
                    (var k, l := kept.objects[i], live.objects[i];
                     && k.id == l.id && k.timestamp == l.timestamp
                     && k.volumeIds == l.volumeIds && k.instanceIds == l.instanceIds
                     && k.volumeTransforms == l.volumeTransforms && k.instanceTransforms == l.instanceTransforms)
        {
        }
      }
    }
  }

  /** An accepted call changes the cursor's archive and the open operation only: an archive made
      earlier keeps its model and takes the live context, and the operation remembers what was
      archived, the scene it started from and the session it belongs to. */
  lemma BeginOpens(s: Timeline, title: string, pred: Roots, kind: OperationKind)
    requires s.operation.None? && Begin(s, title, pred, kind).Some?
    ensures var b := Begin(s, title, pred, kind).value;
            var archived := s.current in s.snapshots;
            && b == s.(snapshots := b.snapshots, operation := b.operation)
            && b.snapshots == s.snapshots[s.current := Snapshot(if archived then s.snapshots[s.current].model else pred.model, pred.context)]
            && b.operation.Some?
            && var op := b.operation.value;
               && op.title == title && op.before == s.current && op.depth == 1 && op.kind == kind
               && op.prior == (if archived then Some(s.snapshots[s.current]) else None)
               && op.objects == pred.model.objects && op.plates == pred.scenePlates
               && op.session == (if s.session.Some? then s.session.value.id else 0)
  {
    hide Capturable, SameShape;
  }

  /** While an operation is open, any further one joins it: a commit of the inner one undoes the
      joining, and giving up gives up the whole, however often it was joined. */
  lemma NestedCallsJoin(s: Timeline, title: string, pred: Roots, kind: OperationKind, succ: Roots, bytes: Timeline -> nat)
    requires Inv(s) && s.operation.Some?
    ensures var b := Begin(s, title, pred, kind);
            && b.Some? && b.value != s
            && Commit(b.value, succ, bytes) == Some(s)
            && Abort(b.value) == Abort(s) && Abort(s).Some?
  {
    hide EdgesInv, Enforce;
    AbortSucceeds(s);
  }

  // ---------- cutting the redo branch ----------

  /** The edge does not belong to the redo branch: it ends before the first redo step. */
  ghost predicate Outlives(s: Timeline, e: Entry)
    requires Inv(s)
  {
    RedoList(s) == [] || e.after < RedoList(s)[0]
  }

  /** A saved marker is given up exactly if its archive was lost on the way from `s` to `u`. */
  ghost predicate MarkerFollows(s: Timeline, u: Timeline) {
    var lost := s.saved.Some? && s.saved.value in s.snapshots && s.saved.value !in u.snapshots;
    && u.saved == (if lost then None else s.saved)
    && u.savedEvicted == (s.savedEvicted || lost)
  }

  lemma RedoListStarts(s: Timeline)
    requires Inv(s)
    ensures RedoList(s) == [] <==> RedoEntry(s.entries, s.current) == None
    ensures RedoList(s) != [] ==> RedoEntry(s.entries, s.current).Some? && RedoList(s)[0] == RedoEntry(s.entries, s.current).value.after
  {
    hide Threaded, MarksInv;
  }

  lemma FirstLeavingIsRedo(es: seq<Entry>, t: nat, top: nat)
    requires Threaded(es, top)
    ensures var i := FirstLeaving(es, t);
            && (i == |es| <==> RedoEntry(es, t) == None)
            && (i < |es| ==> RedoEntry(es, t) == Some(es[i]))
  {
    hide Threaded;
    var i := FirstLeaving(es, t);
    if i < |es| {
      assert es[i] in es;
      UniqueRedo(es, top, es[i]);
    } else {
      assert forall e <- es :: e.before != t;
    }
  }

  lemma PrefixByEnd(es: seq<Entry>, i: nat, top: nat, e: Entry)
    requires Threaded(es, top) && i < |es|
    ensures e in es[..i] <==> e in es && e.after < es[i].after
  {
    if e in es {
      var j :| 0 <= j < |es| && es[j] == e;
      if e.after < es[i].after {
        assert j < i;
        assert es[..i][j] == e;
      }
    }
    if e in es[..i] {
      var j :| 0 <= j < i && es[..i][j] == e;
      assert es[j] == e;
    }
  }

  ghost predicate EndsSome(es: seq<Entry>, t: nat) {
    exists e <- es :: t == e.before || t == e.after
  }

  /** What cutting keeps: the edges that end before the first redo step, and the archives at the
      cursor and at their ends. Without a redo step nothing changes. */
  ghost predicate BranchCut(s: Timeline, u: Timeline)
    requires Inv(s)
  {
    && u == s.(entries := u.entries, snapshots := u.snapshots, saved := u.saved, savedEvicted := u.savedEvicted)
    && MarkerFollows(s, u)
    && (forall e :: e in u.entries <==> e in s.entries && Outlives(s, e))
    && (forall t :: t in u.snapshots <==> (t in s.snapshots && (RedoList(s) == [] || t == s.current || EndsSome(u.entries, t))))
    && (forall t <- u.snapshots :: u.snapshots[t] == s.snapshots[t])
  }

  lemma ErasedExactly(s: Timeline, lost: set<nat>)
    ensures var u := Erase(s, lost);
            && u == s.(snapshots := u.snapshots, saved := u.saved, savedEvicted := u.savedEvicted)
            && u.snapshots == s.snapshots - lost && MarkerFollows(s, u)
  {
  }

  lemma EndsAreEnds(es: seq<Entry>, t: nat)
    ensures t in EndsOf(es) <==> EndsSome(es, t)
  {
  }

  lemma TruncateCutsBranch(s: Timeline)
    requires Inv(s)
    ensures BranchCut(s, TruncateRedo(s))
  {
    hide Inv, FirstLeaving, EndsOf, RedoList, Erase, MarkerFollows, EndsSome;
    var es, top := s.entries, s.nextTimestamp;
    EdgesAreThreaded(s);
    RedoListStarts(s);
    FirstLeavingIsRedo(es, s.current, top);
    var i := FirstLeaving(es, s.current);
    if i == |es| {
      assert MarkerFollows(s, s) by { SameMarker(s); }
    } else {
      var t := s.(entries := es[..i]);
      var lost := t.snapshots.Keys - ({s.current} + EndsOf(t.entries));
      ErasedExactly(t, lost);
      MarkersAgree(s, t, Erase(t, lost));
      forall x: nat ensures x in EndsOf(t.entries) <==> EndsSome(t.entries, x) {
        EndsAreEnds(t.entries, x);
      }
      forall e: Entry ensures e in t.entries <==> e in es && Outlives(s, e) {
        PrefixByEnd(es, i, top, e);
      }
    }
  }

  lemma SameMarker(s: Timeline)
    ensures MarkerFollows(s, s)
  {
  }

  lemma MarkersAgree(s: Timeline, t: Timeline, u: Timeline)
    requires s.snapshots == t.snapshots && s.saved == t.saved && s.savedEvicted == t.savedEvicted && MarkerFollows(t, u)
    ensures MarkerFollows(s, u)
  {
  }

  lemma EdgesAreThreaded(s: Timeline)
    requires Inv(s)
    ensures Threaded(s.entries, s.nextTimestamp)
  {
  }

  /** Cutting frees the whole redo branch. */
  lemma CutFreesBranch(s: Timeline, u: Timeline)
    requires Inv(s) && BranchCut(s, u)
    ensures forall t <- RedoList(s) :: t in s.snapshots && t !in u.snapshots
    ensures s.saved.Some? && s.saved.value in RedoList(s) ==> u.saved == None && u.savedEvicted
  {
    hide Inv, RedoList;
    ListsAreArchived(s);
    EdgesPointForward(s);
    var R := RedoList(s);
    forall t | t in R ensures t !in u.snapshots {
      var j :| 0 <= j < |R| && R[j] == t;
      assert R[0] <= t;
      forall e | e in u.entries ensures e.before < t && e.after < t {
        assert e in s.entries && Outlives(s, e);
      }
    }
  }

  // ---------- committing ----------

  /** What a commit is before the budget has its say: the branch is cut, one edge is added with the
      operation's data and what changed since it began, and the cursor goes to its end. */
  ghost predicate Committed(s: Timeline, op: Operation, succ: Roots, cut: Timeline, grown: Timeline) {
    var e := Entry(s.nextEntry, op.title, op.before, s.nextTimestamp,
                   DeltaBetween(op.objects, op.plates, succ.model.objects, succ.scenePlates), op.kind, op.session);
    && grown == cut.(entries := cut.entries + [e], current := s.nextTimestamp,
                     nextTimestamp := s.nextTimestamp + 1, nextEntry := s.nextEntry + 1, session := grown.session)
    && grown.session == (match s.session
                         case None => None
                         case Some(x) => Some(x.(effective := x.effective || x.id == op.session)))
  }

  lemma CommitExactly(s: Timeline, succ: Roots, bytes: Timeline -> nat) returns (cut: Timeline, grown: Timeline)
    requires Inv(s) && s.operation.Some? && s.operation.value.depth == 1
    ensures Inv(s.(operation := None)) && BranchCut(s.(operation := None), cut) && Inv(cut)
    ensures Committed(s, s.operation.value, succ, cut, grown) && Inv(grown)
    ensures Commit(s, succ, bytes) == Some(Enforce(grown, bytes, false))
  {
    var closed := s.(operation := None);
    cut := TruncateRedo(closed);
    grown := Append(cut, s.operation.value, succ);
    hide Past, Future, Enforce, DeltaBetween, BranchCut, TruncateRedo, Append, Committed;
    WithoutOperation(s);
    hide Inv;
    TruncateKeepsInv(closed);
    TruncateCutsBranch(closed);
    TruncateCutsRedo(closed);
    CutKeepsRest(closed);
    assert cut.current in cut.snapshots by { OnlyLostKeepsCursor(closed, cut); }
    AppendKeepsInv(cut, s.operation.value, succ);
    AppendIsCommitted(s, cut, s.operation.value, succ);
  }

  lemma WithoutOperation(s: Timeline)
    requires Inv(s) && s.operation.Some?
    ensures Inv(s.(operation := None)) && s.operation.value.before == s.current && s.current in s.snapshots
  {
    hide Threaded;
  }

  lemma OnlyLostKeepsCursor(s: Timeline, u: Timeline)
    requires OnlyLost(s, u) && s.current in s.snapshots
    ensures u.current == s.current && u.current in u.snapshots
  {
  }

  lemma AppendIsCommitted(s: Timeline, cut: Timeline, op: Operation, succ: Roots)
    requires cut == s.(operation := None, entries := cut.entries, snapshots := cut.snapshots, saved := cut.saved, savedEvicted := cut.savedEvicted)
    ensures Committed(s, op, succ, cut, Append(cut, op, succ))
  {
    hide DeltaBetween;
  }

  lemma CutKeepsRest(s: Timeline)
    ensures var u := TruncateRedo(s);
            u == s.(entries := u.entries, snapshots := u.snapshots, saved := u.saved, savedEvicted := u.savedEvicted)
  {
    hide FirstLeaving;
  }

  /** After an outer commit nothing of the former redo branch is archived, and a saved marker on it
      is given up and reported as lost. */
  lemma CommitFreesBranch(s: Timeline, succ: Roots, bytes: Timeline -> nat)
    requires Inv(s) && s.operation.Some? && s.operation.value.depth == 1
    ensures var u := Commit(s, succ, bytes).value;
            && (forall t <- RedoList(s) :: t in s.snapshots && t !in u.snapshots)
            && (s.saved.Some? && s.saved.value in RedoList(s) ==> u.saved == None && u.savedEvicted)
  {
    hide Threaded, Future, Enforce, ListsTrimmed;
    var cut, grown := CommitExactly(s, succ, bytes);
    var closed := s.(operation := None);
    assert RedoList(closed) == RedoList(s);
    hide Inv, Committed, BranchCut, RedoList, Commit;
    CutFreesBranch(closed, cut);
    var k, m := EnforceTrims(grown, bytes, false);
    CommittedKeeps(s, s.operation.value, succ, cut, grown);
    LostStaysLost(grown, Enforce(grown, bytes, false));
  }

  lemma CommittedKeeps(s: Timeline, op: Operation, succ: Roots, cut: Timeline, grown: Timeline)
    requires Committed(s, op, succ, cut, grown)
    ensures grown.snapshots == cut.snapshots && grown.saved == cut.saved && grown.savedEvicted == cut.savedEvicted
  {
  }

  lemma LostStaysLost(s: Timeline, u: Timeline)
    requires OnlyLost(s, u)
    ensures forall t <- u.snapshots :: t in s.snapshots
    ensures s.saved == None && s.savedEvicted ==> u.saved == None && u.savedEvicted
  {
  }

  /** An edit from opening to Undo: the step is recorded with the edit's title and kind, the session
      it was made in and exactly the difference between the scene before and the scene after, and
      that difference is what Undo tells the caller to update. */
  lemma EditIsRecorded(s: Timeline, title: string, pred: Roots, kind: OperationKind, succ: Roots, live: Roots, bytes: Timeline -> nat)
    requires Inv(s) && s.operation.None? && Begin(s, title, pred, kind).Some? && Capturable(live.model)
    ensures var b := Begin(s, title, pred, kind).value;
            && Commit(b, succ, bytes).Some?
            && var u := Commit(b, succ, bytes).value;
               && Inv(u) && Forward(u.entries)
               && UndoEntry(u.entries, u.current) ==
                    Some(Entry(s.nextEntry, title, s.current, s.nextTimestamp,
                               DeltaBetween(pred.model.objects, pred.scenePlates, succ.model.objects, succ.scenePlates), kind,
                               if s.session.Some? then s.session.value.id else 0))
               && Undo(u, live, bytes).Some?
               && Undo(u, live, bytes).value.1.delta ==
                    DeltaBetween(pred.model.objects, pred.scenePlates, succ.model.objects, succ.scenePlates)
  {
    hide Inv, Capturable, Begin, Commit, Undo, Redo, Covers, DeltaBetween, UndoList, RedoList;
    BeginOpens(s, title, pred, kind);
    BeginKeepsInv(s, title, pred, kind);
    var b := Begin(s, title, pred, kind).value;
    OuterCommitSucceeds(b, succ, bytes);
    var k := CommitExtendsUndo(b, succ, bytes);
    CommitIsRecorded(b, succ, bytes);
    EditUndoRedo(s, title, pred, kind, succ, live, bytes);
    var u := Commit(b, succ, bytes).value;
    EdgesPointForward(u);
    StepDelta(u, live, bytes);
  }

  // ---------- merging, compacting and closing ----------

  lemma InsideIsInner(s: Timeline, t: nat) returns (a: Entry, b: Entry)
    requires Inv(s) && s.session.Some? && t in Inside(s)
    ensures a in s.entries && b in s.entries && a.after == t && b.before == t
    ensures t != s.current && t in s.snapshots
  {
    hide MarksInv, Threaded, InsideRuns, AppliedCount;
    var es, n, sid := s.entries, AppliedCount(s.entries, s.current), s.session.value.id;
    InsideIsBetweenNeighbours(es, n, sid, "", t);
    var i: nat :| Joined(es, n, sid, i) && es[i].after == t;
    a, b := es[i], es[i + 1];
    EdgesAreThreaded(s);
    EdgeBounds(es, s.nextTimestamp, b);
    AppliedIsEarlier(es, s.current);
  }

  lemma {:induction false} NoEndInside(es: seq<Entry>, n: nat, sid: nat, title: string, top: nat, t: nat)
    requires n <= |es| && Threaded(es, top) && t in InsideRuns(es, n, sid, title)
    ensures Threaded(MergeRuns(es, n, sid, title), top)
    ensures t !in EndsOf(MergeRuns(es, n, sid, title))
  {
    hide Threaded, MergeRuns, InsideRuns, EndsOf;
    assert [] + es == es;
    NoEndInsideAfter([], es, n, sid, title, top, t);
    assert [] + MergeRuns(es, n, sid, title) == MergeRuns(es, n, sid, title);
  }

  lemma MergedAwayIsGone(pre: seq<Entry>, es: seq<Entry>, sid: nat, title: string, top: nat)
    requires |es| >= 2 && Threaded(pre + es, top) && Mergeable(es[0], es[1], sid)
    ensures var ms := pre + ([Combine(es[0], es[1], title)] + es[2..]);
            Threaded(ms, top) && es[0].after !in EndsOf(ms)
  {
    hide Threaded;
    var full, c := pre + es, Combine(es[0], es[1], title);
    var ms := pre + ([c] + es[2..]);
    MergePair(pre, es, sid, title, top);
    var a, b := es[0], es[1];
    assert full[|pre|] == a && full[|pre| + 1] == b;
    EdgeBounds(full, top, a);
    EdgeBounds(full, top, b);
    forall e | e in ms ensures e.before != a.after && e.after != a.after {
      if e != c {
        if e.before == b.before {
          UniqueRedo(full, top, e);
          UniqueRedo(full, top, b);
        }
        if e.after == a.after {
          UniqueUndo(full, top, e);
          UniqueUndo(full, top, a);
        }
      }
    }
  }

  lemma {:induction false} NoEndInsideAfter(pre: seq<Entry>, es: seq<Entry>, n: nat, sid: nat, title: string, top: nat, t: nat)
    requires n <= |es| && Threaded(pre + es, top) && t in InsideRuns(es, n, sid, title)
    ensures Threaded(pre + MergeRuns(es, n, sid, title), top)
    ensures t !in EndsOf(pre + MergeRuns(es, n, sid, title))
    decreases |es|
  {
    hide Threaded, EndsOf;
    if n >= 2 {
      if Mergeable(es[0], es[1], sid) {
        var cs := [Combine(es[0], es[1], title)] + es[2..];
        MergedAwayIsGone(pre, es, sid, title, top);
        if t in InsideRuns(cs, n - 1, sid, title) {
          NoEndInsideAfter(pre, cs, n - 1, sid, title, top, t);
        } else {
          AllThreads(pre, cs, n - 1, sid, title, top);
          EndsAfterMerging(pre, cs, n - 1, sid, title);
        }
      } else {
        ShiftOne(pre, es, MergeRuns(es[1..], n - 1, sid, title));
        NoEndInsideAfter(pre + [es[0]], es[1..], n - 1, sid, title, top, t);
      }
    }
  }

  lemma EndsAfterMerging(pre: seq<Entry>, es: seq<Entry>, n: nat, sid: nat, title: string)
    requires n <= |es|
    ensures EndsOf(pre + MergeRuns(es, n, sid, title)) <= EndsOf(pre + es)
  {
    hide MergeRuns;
    MergedEnds(es, n, sid, title);
    EndsJoin(pre, es);
    EndsJoin(pre, MergeRuns(es, n, sid, title));
  }

  lemma EndsJoin(a: seq<Entry>, b: seq<Entry>)
    ensures EndsOf(a + b) == EndsOf(a) + EndsOf(b)
  {
    assert forall e :: e in a + b <==> e in a || e in b;
  }

  /** The archives merging frees: those between neighbouring strokes, but for the floor. */
  ghost function Freed(s: Timeline): set<nat>
    requires s.session.Some?
  {
    Inside(s) - (if s.floor.Some? then {s.floor.value} else {})
  }

  /** Merging changes the list of edges, frees exactly the archives between neighbouring strokes,
      and nothing else. */
  lemma MergingFrees(s: Timeline, title: string)
    requires Inv(s) && s.session.Some?
    ensures var u := MergeSession(s, title);
            && u == s.(entries := MergeRuns(s.entries, AppliedCount(s.entries, s.current), s.session.value.id, title),
                       snapshots := u.snapshots, saved := u.saved, savedEvicted := u.savedEvicted)
            && u.snapshots == s.snapshots - Freed(s) && MarkerFollows(s, u)
            && Freed(s) <= s.snapshots.Keys && s.current !in Freed(s)
  {
    hide Inv, MergeRuns, InsideRuns, AppliedCount, EndsOf;
    var es, n, sid := s.entries, AppliedCount(s.entries, s.current), s.session.value.id;
    var merged, inside := MergeRuns(es, n, sid, title), InsideRuns(es, n, sid, title);
    TitleIsFree(es, es, n, sid, title, "");
    EdgesAreThreaded(s);
    forall t | t in inside ensures t !in EndsOf(merged) && t != s.current && t in s.snapshots {
      NoEndInside(es, n, sid, title, s.nextTimestamp, t);
      var a, b := InsideIsInner(s, t);
    }
    assert Unreferenced(s, merged, inside) == Freed(s);
    hide Unreferenced, Inside;
    assert forall t <- s.snapshots :: t in MergeSession(s, title).snapshots <==> t !in Freed(s);
  }

  /** `u` keeps no archive of `gone`, and a saved marker there is given up and reported as lost. */
  ghost predicate Frees(s: Timeline, u: Timeline, gone: set<nat>) {
    && (forall t <- gone :: t !in u.snapshots)
    && (s.saved.Some? && s.saved.value in gone ==> u.saved == None && u.savedEvicted)
  }

  lemma LossFrees(s: Timeline, u: Timeline, v: Timeline, gone: set<nat>)
    requires Frees(s, u, gone) && OnlyLost(u, v)
    ensures Frees(s, v, gone)
  {
  }

  /** The open session can be compacted, and only it; without neighbouring strokes nothing changes,
      and otherwise the strokes are merged, the archives between them are freed, and the budget is
      enforced behind the cursor. */
  lemma CompactExactly(s: Timeline, sid: nat, title: string, bytes: Timeline -> nat)
    requires Inv(s)
    ensures Compact(s, sid, title, bytes).Some? <==> s.operation == None && s.session.Some? && s.session.value.id == sid
    ensures Compact(s, sid, title, bytes).Some? ==>
              var merged := MergeSession(s, title);
              && Inv(merged)
              && Compact(s, sid, title, bytes) == Some(if Inside(s) == {} then s else Enforce(merged, bytes, true))
              && Frees(s, Compact(s, sid, title, bytes).value, Freed(s))
  {
    hide Inv, InsideRuns, AppliedCount, MergeSession, Enforce, ListsTrimmed;
    TitleIsFree(s.entries, s.entries, AppliedCount(s.entries, s.current), sid, title, "");
    if Closable(s, sid) {
      MergeKeepsInv(s, title);
      MergingFrees(s, title);
      var merged := MergeSession(s, title);
      assert Frees(s, merged, Freed(s));
      if Inside(s) == {} {
        NothingToMerge(s, title);
      } else {
        var k, m := EnforceTrims(merged, bytes, true);
        LossFrees(s, merged, Enforce(merged, bytes, true), Freed(s));
      }
    }
  }

  /** The open session can be closed, and only it: its strokes are merged, an effective session's
      redo branch is cut and freed, floor and session end, and the budget is enforced, sparing the
      redo branch of a session without effect. */
  lemma CloseExactly(s: Timeline, sid: nat, title: string, bytes: Timeline -> nat) returns (cut: Timeline)
    requires Inv(s)
    ensures Close(s, sid, title, bytes).Some? <==> s.operation == None && s.session.Some? && s.session.value.id == sid
    ensures Close(s, sid, title, bytes).Some? ==>
              var merged, effective := MergeSession(s, title), s.session.value.effective;
              && Inv(merged) && Inv(cut) && Inv(cut.(floor := None, session := None))
              && (if effective then BranchCut(merged, cut) else cut == merged)
              && Close(s, sid, title, bytes) == Some(Enforce(cut.(floor := None, session := None), bytes, !effective))
              && Frees(s, Close(s, sid, title, bytes).value, Freed(s))
              && (effective ==> Frees(s, Close(s, sid, title, bytes).value, set t <- RedoList(s)))
  {
    hide Inv, InsideRuns, AppliedCount, MergeSession, TruncateRedo, Enforce, ListsTrimmed, RedoList, UndoList, BranchCut, MarkerFollows, Frees, OnlyLost;
    cut := s;
    if Closable(s, sid) {
      MergeKeepsInv(s, title);
      MergeKeepsMarks(s, title);
      MergingFrees(s, title);
      MergeHidesInside(s, title);
      var merged := MergeSession(s, title);
      assert Frees(s, merged, Freed(s)) by { MergedFrees(s, merged, Freed(s)); }
      cut := merged;
      if s.session.value.effective {
        cut := TruncateRedo(merged);
        TruncateKeepsInv(merged);
        TruncateCutsBranch(merged);
        LossFrees(s, merged, cut, Freed(s));
        CutFreesAfterMerge(s, merged, cut, Freed(s));
      }
      EndSessionKeepsLists(cut);
      var ended := cut.(floor := None, session := None);
      var k, m := EnforceTrims(ended, bytes, !s.session.value.effective);
      EndingFrees(s, cut, Enforce(ended, bytes, !s.session.value.effective), Freed(s));
      if s.session.value.effective {
        EndingFrees(s, cut, Enforce(ended, bytes, !s.session.value.effective), set t <- RedoList(s));
      }
    }
  }

  lemma MergedFrees(s: Timeline, u: Timeline, gone: set<nat>)
    requires u.snapshots == s.snapshots - gone && MarkerFollows(s, u) && gone <= s.snapshots.Keys
    ensures Frees(s, u, gone)
  {
  }

  lemma EndingFrees(s: Timeline, cut: Timeline, v: Timeline, gone: set<nat>)
    requires Frees(s, cut, gone) && OnlyLost(cut.(floor := None, session := None), v)
    ensures Frees(s, v, gone)
  {
  }

  lemma CutFreesAfterMerge(s: Timeline, merged: Timeline, cut: Timeline, gone: set<nat>)
    requires Inv(s) && Inv(merged) && BranchCut(merged, cut) && RedoList(merged) == RedoList(s)
    requires merged.snapshots == s.snapshots - gone && MarkerFollows(s, merged)
    ensures Frees(s, cut, set t <- RedoList(s))
  {
    hide Inv, RedoList;
    CutFreesBranch(merged, cut);
  }

  // ---------- sessions and the floor ----------

  /** A session can be opened if and only if none and no operation is open, ids are left, and the
      floor, if set, is at the cursor; the last id uses the ids up. */
  lemma SessionOpensIff(s: Timeline)
    ensures BeginSession(s).Some? <==>
              && s.operation == None && s.session == None && s.nextSession != 0
              && (s.floor == None || s.floor == Some(s.current))
    ensures BeginSession(s).Some? ==>
              var u := BeginSession(s).value;
              && u == s.(session := Some(Session(s.nextSession, s.current, false)), floor := Some(s.current), nextSession := u.nextSession)
              && u.nextSession == (if s.nextSession == 0xFFFF_FFFF_FFFF_FFFF then 0 else s.nextSession + 1)
  {
  }

  /** The floor can be set if and only if neither operation nor session is open and it is the cursor
      or an archived timestamp behind it; from then on exactly the timestamps before it are barred,
      and lifting it bars none. */
  lemma FloorBars(s: Timeline, floor: Option<nat>, target: nat)
    requires Inv(s)
    ensures SetFloor(s, floor).Some? <==>
              && s.operation == None && s.session == None
              && (floor.Some? ==> floor.value == s.current || (floor.value < s.current && floor.value in s.snapshots))
    ensures SetFloor(s, floor).Some? ==>
              var u := SetFloor(s, floor).value;
              && u == s.(floor := floor) && Inv(u)
              && (BelowFloor(u, target) <==> floor.Some? && target < floor.value)
  {
    hide Threaded;
  }

  // ---------- contexts and entries ----------

  /** Contexts are rewritten all or not at all: every archive and the rollback state of an open
      operation go through `rewrite`, except the cursor's archive if the caller brings its own. */
  lemma RewriteBindsAll(s: Timeline, rewrite: Bytes -> Option<Bytes>, cursor: Option<Bytes>)
    ensures RewriteContexts(s, rewrite, cursor).Some? <==>
              && (forall t <- s.snapshots :: (t == s.current && cursor.Some?) || rewrite(s.snapshots[t].context.historyContext).Some?)
              && (s.operation.Some? && s.operation.value.prior.Some? ==>
                    rewrite(s.operation.value.prior.value.context.historyContext).Some?)
    ensures RewriteContexts(s, rewrite, cursor).Some? ==>
              var u := RewriteContexts(s, rewrite, cursor).value;
              && u.snapshots.Keys == s.snapshots.Keys
              && (forall t <- s.snapshots ::
                    var context := if t == s.current && cursor.Some? then cursor else rewrite(s.snapshots[t].context.historyContext);
                    && context.Some?
                    && u.snapshots[t].model == s.snapshots[t].model
                    && u.snapshots[t].context.plateSession == s.snapshots[t].context.plateSession
                    && u.snapshots[t].context.projectConfig == s.snapshots[t].context.projectConfig
                    && u.snapshots[t].context.historyContext == context.value)
              && (s.operation.Some? ==>
                    && u.operation.Some?
                    && u.operation.value == s.operation.value.(prior := u.operation.value.prior)
                    && (s.operation.value.prior.None? ==> u.operation.value.prior == None)
                    && (s.operation.value.prior.Some? ==>
                          var kept := s.operation.value.prior.value;
                          && rewrite(kept.context.historyContext).Some?
                          && u.operation.value.prior == Some(kept.(context :=
                               kept.context.(historyContext := rewrite(kept.context.historyContext).value)))))
              && (s.operation.None? ==> u.operation == None)
  {
    forall t | t in s.snapshots
      ensures Rebound(s, t, rewrite, cursor).Some? <==> (t == s.current && cursor.Some?) || rewrite(s.snapshots[t].context.historyContext).Some?
    {
    }
  }

  /** A jump by entry goes to the state before or after the first entry with the id, exactly if a
      jump there is accepted. */
  lemma EntryJumpLands(s: Timeline, id: nat, after: bool, live: Option<Roots>, bytes: Timeline -> nat)
    requires Inv(s) && Forward(s.entries)
    ensures RestoreEntry(s, id, after, live, bytes).Some? ==> exists i | 0 <= i < |s.entries| ::
              && s.entries[i].id == id && (forall j | 0 <= j < i :: s.entries[j].id != id)
              && RestoreEntry(s, id, after, live, bytes).value.1.timestamp == (if after then s.entries[i].after else s.entries[i].before)
    ensures forall i | 0 <= i < |s.entries| && s.entries[i].id == id && (forall j | 0 <= j < i :: s.entries[j].id != id) ::
              RestoreEntry(s, id, after, live, bytes) == Restore(s, if after then s.entries[i].after else s.entries[i].before, live, bytes)
  {
    hide Inv, Restore;
    FirstById(s.entries, id);
    if RestoreEntry(s, id, after, live, bytes).Some? {
      var e := EntryById(s.entries, id).value;
      var k, m := RestoreMovesAlongLine(s, if after then e.after else e.before, live, bytes);
    }
  }

  lemma {:induction false} FirstById(es: seq<Entry>, id: nat)
    ensures EntryById(es, id).Some? ==> exists i | 0 <= i < |es| ::
              es[i] == EntryById(es, id).value && es[i].id == id && forall j | 0 <= j < i :: es[j].id != id
    ensures forall i | 0 <= i < |es| && es[i].id == id && (forall j | 0 <= j < i :: es[j].id != id) :: EntryById(es, id) == Some(es[i])
  {
    if es != [] && es[0].id != id {
      FirstById(es[1..], id);
      forall i | 0 <= i < |es| && es[i].id == id && (forall j | 0 <= j < i :: es[j].id != id) ensures EntryById(es, id) == Some(es[i]) {
        assert forall j | 0 <= j < i - 1 :: es[1..][j] == es[j + 1];
        assert es[1..][i - 1] == es[i];
      }
      if EntryById(es, id).Some? {
        var i :| 0 <= i < |es[1..]| && es[1..][i] == EntryById(es[1..], id).value && forall j | 0 <= j < i :: es[1..][j].id != id;
        assert es[i + 1] == EntryById(es, id).value;
        forall j | 0 <= j < i + 1 ensures es[j].id != id {
          assert j > 0 ==> es[j] == es[1..][j - 1];
        }
      }
    }
  }
}
