/** What merging paint strokes achieves. The design wants every continuous run of strokes to end
    up as one step. The code merges edges that are neighbours in its list, so two strokes that
    follow each other on the undo list stay apart exactly if they are not neighbours there. */
module HistoryPaintRuns {
  import opened Wrappers
  import opened HistoryThreads
  import opened History
  import opened HistorySteps
  import opened HistoryNavigation
  import opened HistoryCompaction

  // ---------- which strokes merge ----------

  /** Edge `i` and the next one are strokes of one run among the first `n` edges. */
  predicate Joined(es: seq<Entry>, n: nat, sid: nat, i: nat) {
    i + 1 < n <= |es| && Mergeable(es[i], es[i + 1], sid)
  }

  /** The timestamps merged away are exactly those between two neighbouring strokes. */
  lemma {:induction false} InsideIsBetweenNeighbours(es: seq<Entry>, n: nat, sid: nat, title: string, t: nat)
    requires n <= |es|
    ensures t in InsideRuns(es, n, sid, title) <==> exists i: nat :: Joined(es, n, sid, i) && es[i].after == t
    decreases |es|
  {
    if n >= 2 {
      var joined := Mergeable(es[0], es[1], sid);
      var rest := if joined then [Combine(es[0], es[1], title)] + es[2..] else es[1..];
      InsideIsBetweenNeighbours(rest, n - 1, sid, title, t);
      assert forall i: nat :: Joined(rest, n - 1, sid, i) ==> rest[i].after == es[i + 1].after;
      assert joined ==> Joined(es, n, sid, 0);
      if i: nat :| Joined(rest, n - 1, sid, i) && rest[i].after == t {
        assert Joined(es, n, sid, i + 1);
      }
      if i: nat :| Joined(es, n, sid, i) && es[i].after == t {
        if i > 0 {
          assert Joined(rest, n - 1, sid, i - 1);
        }
      }
    }
  }

  // ---------- what merging keeps ----------

  /** The edges that are no strokes of the session, in order. */
  function Others(es: seq<Entry>, sid: nat): seq<Entry> {
    if es == [] then [] else (if SessionPaint(es[0], sid) then [] else [es[0]]) + Others(es[1..], sid)
  }

  /** Merging leaves every edge that is no stroke of the session as it was, in the same order. */
  lemma {:induction false} OthersSurvive(es: seq<Entry>, n: nat, sid: nat, title: string)
    requires n <= |es|
    ensures Others(MergeRuns(es, n, sid, title), sid) == Others(es, sid)
    decreases |es|
  {
    if n >= 2 {
      if Mergeable(es[0], es[1], sid) {
        var cs := [Combine(es[0], es[1], title)] + es[2..];
        OthersSurvive(cs, n - 1, sid, title);
        assert cs[1..] == es[1..][1..];
      } else {
        OthersSurvive(es[1..], n - 1, sid, title);
        assert ([es[0]] + MergeRuns(es[1..], n - 1, sid, title))[1..] == MergeRuns(es[1..], n - 1, sid, title);
      }
    }
  }

  /** Merging leaves the edges from the `n`-th on as they were, at the end of the list. */
  lemma {:induction false} LaterEdgesSurvive(es: seq<Entry>, n: nat, sid: nat, title: string) returns (front: seq<Entry>)
    requires n <= |es|
    ensures MergeRuns(es, n, sid, title) == front + es[n..]
    decreases |es|
  {
    hide Mergeable, Combine;
    front := es[..n];
    if n >= 2 {
      if Mergeable(es[0], es[1], sid) {
        var cs := [Combine(es[0], es[1], title)] + es[2..];
        front := LaterEdgesSurvive(cs, n - 1, sid, title);
        LaterOfMerged(cs[0], es, n);
      } else {
        var rest := LaterEdgesSurvive(es[1..], n - 1, sid, title);
        front := [es[0]] + rest;
        assert es[1..][n - 1..] == es[n..];
        assert [es[0]] + (rest + es[n..]) == front + es[n..];
      }
    }
  }

  lemma LaterOfMerged(c: Entry, es: seq<Entry>, n: nat)
    requires 2 <= n <= |es|
    ensures ([c] + es[2..])[n - 1..] == es[n..]
  {
  }

  /** What merging makes is nothing but longer strokes that start where a stroke started. */
  ghost predicate KeptOrLonger(e: Entry, es: seq<Entry>, sid: nat, title: string) {
    e in es || (SessionPaint(e, sid) && e.title == title && exists f <- es :: SessionPaint(f, sid) && f.before == e.before && f.id == e.id)
  }

  lemma {:induction false} OnlyStrokesGrow(es: seq<Entry>, n: nat, sid: nat, title: string)
    requires n <= |es|
    ensures forall e <- MergeRuns(es, n, sid, title) :: KeptOrLonger(e, es, sid, title)
    decreases |es|
  {
    if n >= 2 {
      var ms := MergeRuns(es, n, sid, title);
      assert es[0] in es;
      if Mergeable(es[0], es[1], sid) {
        var cs := [Combine(es[0], es[1], title)] + es[2..];
        OnlyStrokesGrow(cs, n - 1, sid, title);
        forall e | e in ms ensures KeptOrLonger(e, es, sid, title) {
          assert KeptOrLonger(e, cs, sid, title);
        }
      } else {
        OnlyStrokesGrow(es[1..], n - 1, sid, title);
        forall e | e in ms ensures KeptOrLonger(e, es, sid, title) {
          assert e == es[0] || KeptOrLonger(e, es[1..], sid, title);
        }
      }
    }
  }

  /** A stroke of the session ends at `t`. */
  ghost predicate StrokeInto(es: seq<Entry>, sid: nat, t: nat) {
    exists e <- es :: e.after == t && SessionPaint(e, sid)
  }

  /** A stroke of the session starts at `t`. */
  ghost predicate StrokeFrom(es: seq<Entry>, sid: nat, t: nat) {
    exists e <- es :: e.before == t && SessionPaint(e, sid)
  }

  /** Two strokes of the session follow each other at `t`. */
  ghost predicate Joint(es: seq<Entry>, sid: nat, t: nat) {
    StrokeInto(es, sid, t) && StrokeFrom(es, sid, t)
  }

  lemma OneMerge(es: seq<Entry>, cs: seq<Entry>, c: Entry, sid: nat, t: nat)
    requires |es| >= 2 && Mergeable(es[0], es[1], sid) && cs == [c] + es[2..]
    requires SessionPaint(c, sid) && c.before == es[0].before && c.after == es[1].after && t != es[0].after
    ensures StrokeInto(cs, sid, t) <==> StrokeInto(es, sid, t)
    ensures StrokeFrom(cs, sid, t) <==> StrokeFrom(es, sid, t)
  {
    assert es == [es[0], es[1]] + es[2..];
    assert es[0] in es && es[1] in es && c in cs;
  }

  lemma OneMore(e: Entry, es: seq<Entry>, sid: nat, t: nat)
    ensures StrokeInto([e] + es, sid, t) <==> (e.after == t && SessionPaint(e, sid)) || StrokeInto(es, sid, t)
    ensures StrokeFrom([e] + es, sid, t) <==> (e.before == t && SessionPaint(e, sid)) || StrokeFrom(es, sid, t)
  {
    assert e in [e] + es;
    assert forall f <- es :: f in [e] + es;
  }

  /** At a timestamp that is not merged away, strokes start and end as before. */
  lemma {:induction false} StrokesStay(es: seq<Entry>, n: nat, sid: nat, title: string, t: nat)
    requires n <= |es| && t !in InsideRuns(es, n, sid, title)
    ensures StrokeInto(MergeRuns(es, n, sid, title), sid, t) <==> StrokeInto(es, sid, t)
    ensures StrokeFrom(MergeRuns(es, n, sid, title), sid, t) <==> StrokeFrom(es, sid, t)
    decreases |es|
  {
    hide StrokeInto, StrokeFrom;
    if n >= 2 {
      if Mergeable(es[0], es[1], sid) {
        var c := Combine(es[0], es[1], title);
        OneMerge(es, [c] + es[2..], c, sid, t);
        StrokesStay([c] + es[2..], n - 1, sid, title, t);
      } else {
        StrokesStay(es[1..], n - 1, sid, title, t);
        OneMore(es[0], MergeRuns(es[1..], n - 1, sid, title), sid, t);
        OneMore(es[0], es[1..], sid, t);
        assert es == [es[0]] + es[1..];
      }
    }
  }

  // ---------- joints on the undo list ----------

  lemma {:induction false} PastAt(es: seq<Entry>, from: nat, i: nat)
    requires Forward(es) && i < |Past(es, from)|
    ensures Past(es, Past(es, from)[i]) == Past(es, from)[..i]
    decreases from
  {
    var e := UndoEntry(es, from).value;
    if i < |Past(es, e.before)| {
      PastAt(es, e.before, i);
    }
  }

  /** Two neighbours on the undo list, or its last timestamp and the cursor, are the ends of an
      edge. */
  lemma EdgeOnUndoList(s: Timeline, i: nat) returns (e: Entry)
    requires Inv(s) && i < |UndoList(s)|
    ensures e in s.entries && e.before == UndoList(s)[i]
    ensures e.after == if i + 1 < |UndoList(s)| then UndoList(s)[i + 1] else s.current
  {
    hide Threaded, MarksInv;
    EdgesPointForward(s);
    var U := UndoList(s);
    var next := if i + 1 < |U| then U[i + 1] else s.current;
    if i + 1 < |U| {
      PastAt(s.entries, s.current, i + 1);
    }
    assert Past(s.entries, next) == U[..i + 1];
    e := UndoEntry(s.entries, next).value;
  }

  lemma NoEdgeIntoOldest(s: Timeline)
    requires Inv(s) && UndoList(s) != []
    ensures forall e <- s.entries :: e.after != UndoList(s)[0]
  {
    hide Threaded, MarksInv;
    EdgesPointForward(s);
    PastAt(s.entries, s.current, 0);
  }

  lemma StrokeOfEdge(es: seq<Entry>, top: nat, e: Entry, sid: nat)
    requires Threaded(es, top) && e in es
    ensures StrokeInto(es, sid, e.after) <==> SessionPaint(e, sid)
    ensures StrokeFrom(es, sid, e.before) <==> SessionPaint(e, sid)
  {
    forall f | f in es && (f.after == e.after || f.before == e.before) ensures f == e {
      UniqueUndo(es, top, e);
      UniqueUndo(es, top, f);
      UniqueRedo(es, top, e);
      UniqueRedo(es, top, f);
    }
  }

  /** When edges are lost, a joint on the undo list is lost exactly if it becomes its old end. */
  lemma JointAfterLoss(s: Timeline, u: Timeline, sid: nat, i: nat)
    requires Inv(s) && Inv(u) && (forall e <- u.entries :: e in s.entries) && i < |UndoList(u)|
    ensures Joint(u.entries, sid, UndoList(u)[i]) <==> i > 0 && Joint(s.entries, sid, UndoList(u)[i])
  {
    hide Inv, UndoList, StrokeInto, StrokeFrom;
    var t := UndoList(u)[i];
    var out := EdgeOnUndoList(u, i);
    IsThreaded(s);
    IsThreaded(u);
    StrokeOfEdge(s.entries, s.nextTimestamp, out, sid);
    StrokeOfEdge(u.entries, u.nextTimestamp, out, sid);
    if i == 0 {
      NoEdgeIntoOldest(u);
      NoStrokeInto(u.entries, sid, t);
    } else {
      var into := EdgeOnUndoList(u, i - 1);
      StrokeOfEdge(s.entries, s.nextTimestamp, into, sid);
      StrokeOfEdge(u.entries, u.nextTimestamp, into, sid);
    }
  }

  lemma IsThreaded(s: Timeline)
    requires Inv(s)
    ensures Threaded(s.entries, s.nextTimestamp)
  {
  }

  lemma NoStrokeInto(es: seq<Entry>, sid: nat, t: nat)
    requires forall e <- es :: e.after != t
    ensures !StrokeInto(es, sid, t)
  {
  }

  /** `u` is `s` with its runs merged and, perhaps, edges lost afterwards. */
  ghost predicate MergedFrom(s: Timeline, u: Timeline, title: string)
    requires Inv(s) && s.session.Some? && Inv(u)
  {
    && (forall e <- u.entries :: e in MergeSession(s, title).entries)
    && (forall t <- UndoList(u) :: t !in Inside(s))
  }

  /** A joint that is still on the undo list after merging was there before, and the other way
      round, but for the old end of the list. */
  lemma JointsAfterMerging(s: Timeline, u: Timeline, title: string, i: nat)
    requires Inv(s) && s.operation.None? && s.session.Some? && Inv(u) && MergedFrom(s, u, title) && i < |UndoList(u)|
    ensures Joint(u.entries, s.session.value.id, UndoList(u)[i]) <==>
              i > 0 && Joint(s.entries, s.session.value.id, UndoList(u)[i])
  {
    hide EdgesInv, MarksInv, UndoList, Joint, MergeRuns, InsideRuns, AppliedCount;
    var merged, sid, t := MergeSession(s, title), s.session.value.id, UndoList(u)[i];
    MergeKeepsInv(s, title);
    JointAfterLoss(merged, u, sid, i);
    var n := AppliedCount(s.entries, s.current);
    TitleIsFree(s.entries, s.entries, n, sid, title, "");
    assert t in UndoList(u) && t !in Inside(s);
    assert Joint(merged.entries, sid, t) <==> Joint(s.entries, sid, t) by {
      StrokesStay(s.entries, n, sid, title, t);
      JointIsBoth(merged.entries, sid, t);
      JointIsBoth(s.entries, sid, t);
    }
  }

  lemma JointIsBoth(es: seq<Entry>, sid: nat, t: nat)
    ensures Joint(es, sid, t) <==> StrokeInto(es, sid, t) && StrokeFrom(es, sid, t)
  {
  }

  // ---------- one step each run ----------

  /** No two consecutive steps of the undo list are strokes of the session. */
  ghost predicate Collapsed(s: Timeline, sid: nat)
    requires Inv(s)
  {
    forall t <- UndoList(s) :: !Joint(s.entries, sid, t)
  }

  /** The strokes that meet at `t` are neighbours in the list of edges. */
  ghost predicate NeighboursAt(s: Timeline, sid: nat, t: nat) {
    exists i: nat :: Joined(s.entries, |s.entries|, sid, i) && s.entries[i].after == t
  }

  /** Strokes of the session that follow each other on the undo list are neighbours in the list of
      edges. */
  ghost predicate StrokesAreNeighbours(s: Timeline, sid: nat)
    requires Inv(s)
  {
    forall t <- UndoList(s) :: Joint(s.entries, sid, t) ==> NeighboursAt(s, sid, t)
  }

  /** No timestamp that is still on the undo list of `u`, but for its old end, was between two
      strokes of the undo list of `s`. */
  ghost predicate NoJointIsLeft(s: Timeline, u: Timeline, sid: nat)
    requires Inv(u)
  {
    forall i | 0 < i < |UndoList(u)| :: !Joint(s.entries, sid, UndoList(u)[i])
  }

  lemma {:induction false} AppliedIsAll(es: seq<Entry>, t: nat, i: nat)
    requires i < |es| && es[i].after <= t && forall j, k | 0 <= j < k < |es| :: es[j].after < es[k].after
    ensures i < AppliedCount(es, t)
  {
    if i > 0 {
      AppliedIsAll(es[1..], t, i - 1);
    }
  }

  /** On the undo list, "between two neighbouring strokes" is the same as "merged away". */
  lemma InsideOnUndoList(s: Timeline, sid: nat, t: nat)
    requires Inv(s) && s.session.Some? && s.session.value.id == sid && t in UndoList(s)
    ensures t in Inside(s) <==> NeighboursAt(s, sid, t)
  {
    hide Inv, InsideRuns, AppliedCount, UndoList, Mergeable;
    var es, n := s.entries, AppliedCount(s.entries, s.current);
    InsideIsBetweenNeighbours(es, n, sid, "", t);
    if t in Inside(s) {
      var i: nat :| Joined(es, n, sid, i) && es[i].after == t;
      assert Joined(es, |es|, sid, i) by { FewerEdges(es, n, sid, i); }
    }
    if i: nat :| Joined(es, |es|, sid, i) && es[i].after == t {
      JoinedIsApplied(s, sid, t, i);
    }
  }

  lemma FewerEdges(es: seq<Entry>, n: nat, sid: nat, i: nat)
    requires Joined(es, n, sid, i)
    ensures Joined(es, |es|, sid, i)
  {
  }

  lemma JoinedIsApplied(s: Timeline, sid: nat, t: nat, i: nat)
    requires Inv(s) && t in UndoList(s) && Joined(s.entries, |s.entries|, sid, i) && s.entries[i].after == t
    ensures Joined(s.entries, AppliedCount(s.entries, s.current), sid, i)
  {
    hide Inv, AppliedCount, UndoList;
    var es := s.entries;
    IsThreaded(s);
    NextOnUndoList(s, t, es[i + 1]);
    AppliedIsAll(es, s.current, i + 1);
  }

  lemma NextOnUndoList(s: Timeline, t: nat, e: Entry)
    requires Inv(s) && t in UndoList(s) && e in s.entries && e.before == t
    ensures e.after <= s.current
  {
    hide EdgesInv, MarksInv, UndoList;
    var i :| 0 <= i < |UndoList(s)| && UndoList(s)[i] == t;
    var f := EdgeOnUndoList(s, i);
    IsThreaded(s);
    UniqueRedo(s.entries, s.nextTimestamp, e);
    UniqueRedo(s.entries, s.nextTimestamp, f);
    ListsAreArchived(s);
    assert i + 1 < |UndoList(s)| ==> UndoList(s)[i + 1] in UndoList(s);
  }

  lemma {:induction false} FirstStays(ts: seq<nat>, gone: set<nat>)
    requires ts != [] && ts[0] !in gone
    ensures Without(ts, gone) != [] && Without(ts, gone)[0] == ts[0]
  {
  }

  /** The oldest timestamp of the undo list is no joint and is not merged away. */
  lemma OldestIsNoJoint(s: Timeline, sid: nat)
    requires Inv(s) && UndoList(s) != [] && s.session.Some? && s.session.value.id == sid
    ensures !Joint(s.entries, sid, UndoList(s)[0]) && UndoList(s)[0] !in Inside(s)
  {
    hide Inv, UndoList, Inside;
    NoEdgeIntoOldest(s);
    NoStrokeInto(s.entries, sid, UndoList(s)[0]);
    InsideOnUndoList(s, sid, UndoList(s)[0]);
  }

  /** Applied edges are those that end at the cursor or before. */
  lemma AppliedExactly(s: Timeline, i: nat)
    requires Inv(s) && i < |s.entries|
    ensures i < AppliedCount(s.entries, s.current) <==> s.entries[i].after <= s.current
  {
    hide AppliedCount;
    IsThreaded(s);
    AppliedIsEarlier(s.entries, s.current);
    if s.entries[i].after <= s.current {
      AppliedIsAll(s.entries, s.current, i);
    }
  }

  /** What merging takes away, wherever it lies: the timestamps between two edges that are neighbours
      in the list, both strokes of the session and both ended by the cursor. */
  lemma InsideExactly(s: Timeline, t: nat)
    requires Inv(s) && s.session.Some?
    ensures t in Inside(s) <==> exists i: nat ::
              Joined(s.entries, |s.entries|, s.session.value.id, i) && s.entries[i].after == t && s.entries[i + 1].after <= s.current
  {
    hide Inv, AppliedCount, InsideRuns, Mergeable;
    var es, sid := s.entries, s.session.value.id;
    var n := AppliedCount(es, s.current);
    InsideIsBetweenNeighbours(es, n, sid, "", t);
    forall i: nat | i + 1 < |es| ensures Joined(es, n, sid, i) <==> Joined(es, |es|, sid, i) && es[i + 1].after <= s.current {
      AppliedExactly(s, i + 1);
    }
  }

  /** If consecutive strokes are neighbours in the list, the runs collapse whatever is lost; if
      nothing is lost, they collapse only then; and in any case they collapse exactly if no joint
      survives both merging and loss. */
  lemma MergingCollapses(s: Timeline, u: Timeline, title: string)
    requires Inv(s) && s.operation.None? && s.session.Some? && Inv(u) && MergedFrom(s, u, title)
    requires forall t <- UndoList(u) :: t in UndoList(s)
    ensures var sid := s.session.value.id;
            && (StrokesAreNeighbours(s, sid) ==> Collapsed(u, sid))
            && (Collapsed(u, sid) <==> NoJointIsLeft(s, u, sid))
            && (UndoList(u) == Without(UndoList(s), Inside(s)) ==> (Collapsed(u, sid) <==> StrokesAreNeighbours(s, sid)))
  {
    hide Inv, UndoList, Joint, NeighboursAt, Inside, Without, MergedFrom;
    var sid, U := s.session.value.id, UndoList(u);
    UndoListIsOutside(s, u, title);
    forall i: nat | i < |U| ensures Joint(u.entries, sid, U[i]) <==> i > 0 && Joint(s.entries, sid, U[i]) {
      JointsAfterMerging(s, u, title, i);
    }
    forall t | t in UndoList(s) ensures t in Inside(s) <==> NeighboursAt(s, sid, t) {
      InsideOnUndoList(s, sid, t);
    }
    if Collapsed(u, sid) && U == Without(UndoList(s), Inside(s)) {
      forall t | t in UndoList(s) && Joint(s.entries, sid, t) ensures NeighboursAt(s, sid, t) {
        if t !in Inside(s) {
          OldestIsNoJoint(s, sid);
          FirstStays(UndoList(s), Inside(s));
        }
      }
    }
  }

  lemma UndoListIsOutside(s: Timeline, u: Timeline, title: string)
    requires Inv(s) && s.session.Some? && Inv(u) && MergedFrom(s, u, title)
    ensures forall t <- UndoList(u) :: t !in Inside(s)
  {
  }

  lemma {:induction false} NothingMerges(es: seq<Entry>, n: nat, sid: nat, title: string)
    requires n <= |es| && InsideRuns(es, n, sid, title) == {}
    ensures MergeRuns(es, n, sid, title) == es
    decreases |es|
  {
    if n >= 2 && !Mergeable(es[0], es[1], sid) {
      NothingMerges(es[1..], n - 1, sid, title);
    }
  }

  lemma NothingToMerge(s: Timeline, title: string)
    requires s.session.Some? && Inside(s) == {}
    ensures MergeSession(s, title) == s
  {
    hide MergeRuns, InsideRuns, AppliedCount;
    var n, sid := AppliedCount(s.entries, s.current), s.session.value.id;
    TitleIsFree(s.entries, s.entries, n, sid, title, "");
    NothingMerges(s.entries, n, sid, title);
    assert s.snapshots - {} == s.snapshots;
  }

  /** Compaction leaves one step of each continuous run if the strokes of each run are neighbours
      in the list of edges, and unless the budget takes the offending step, only then. */
  lemma CompactCollapses(s: Timeline, sid: nat, title: string, bytes: Timeline -> nat)
    requires Inv(s) && Closable(s, sid)
    ensures var u := Compact(s, sid, title, bytes).value;
            && Inv(u)
            && (StrokesAreNeighbours(s, sid) ==> Collapsed(u, sid))
            && (Collapsed(u, sid) <==> NoJointIsLeft(s, u, sid))
            && (bytes(MergeSession(s, title)) <= s.budget ==> (Collapsed(u, sid) <==> StrokesAreNeighbours(s, sid)))
  {
    hide EdgesInv, MarksInv, MergeSession, UndoList, Joint, NeighboursAt, NoJointIsLeft, InsideRuns, AppliedCount, OnlyLost, ListsTrimmed;
    TitleIsFree(s.entries, s.entries, AppliedCount(s.entries, s.current), sid, title, "");
    MergeKeepsInv(s, title);
    MergeHidesInside(s, title);
    MergeKeepsMarks(s, title);
    var merged, u := MergeSession(s, title), Compact(s, sid, title, bytes).value;
    var k := CompactHidesInside(s, sid, title, bytes);
    if Inside(s) == {} {
      NothingToMerge(s, title);
    } else {
      LossIsLoss(merged, bytes, true);
    }
    MergingCollapses(s, u, title);
  }

  /** The same for closing. */
  lemma CloseCollapses(s: Timeline, sid: nat, title: string, bytes: Timeline -> nat)
    requires Inv(s) && Closable(s, sid)
    ensures var u := Close(s, sid, title, bytes).value;
            && Inv(u)
            && (StrokesAreNeighbours(s, sid) ==> Collapsed(u, sid))
            && (Collapsed(u, sid) <==> NoJointIsLeft(s, u, sid))
            && (bytes(BeforeClosingLoss(s, title)) <= s.budget ==> (Collapsed(u, sid) <==> StrokesAreNeighbours(s, sid)))
  {
    hide EdgesInv, MarksInv, MergeSession, TruncateRedo, UndoList, Joint, NeighboursAt, NoJointIsLeft, InsideRuns, AppliedCount, OnlyLost, ListsTrimmed;
    MergeKeepsInv(s, title);
    MergeHidesInside(s, title);
    MergeKeepsMarks(s, title);
    var merged, u := MergeSession(s, title), Close(s, sid, title, bytes).value;
    var k := CloseHidesInside(s, sid, title, bytes);
    CutKeepsUndo(merged);
    var cut := if s.session.value.effective then TruncateRedo(merged) else merged;
    EndSessionKeepsLists(cut);
    LossIsLoss(EndSession(cut), bytes, !s.session.value.effective);
    MergingCollapses(s, u, title);
  }

  /** The timeline a closing session leaves to the budget. */
  function BeforeClosingLoss(s: Timeline, title: string): Timeline
    requires s.session.Some?
  {
    var merged := MergeSession(s, title);
    EndSession(if s.session.value.effective then TruncateRedo(merged) else merged)
  }

  lemma LossIsLoss(s: Timeline, bytes: Timeline -> nat, preserveRedo: bool)
    requires Inv(s)
    ensures forall e <- Enforce(s, bytes, preserveRedo).entries :: e in s.entries
    ensures bytes(s) <= s.budget ==> Enforce(s, bytes, preserveRedo) == s
  {
    hide Inv, ListsTrimmed;
    var k, m := EnforceTrims(s, bytes, preserveRedo);
  }

  lemma CutKeepsUndo(s: Timeline)
    requires Inv(s) && s.operation.None?
    ensures Inv(TruncateRedo(s)) && UndoList(TruncateRedo(s)) == UndoList(s)
    ensures (forall e <- TruncateRedo(s).entries :: e in s.entries) && TruncateRedo(s).budget == s.budget
  {
    hide EdgesInv, MarksInv, UndoList, TruncateRedo;
    TruncateKeepsInv(s);
    TruncateCutsRedo(s);
  }
}
