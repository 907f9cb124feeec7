/** Merging the paint strokes of an editing session, and closing the session: the timestamps
    between neighbouring strokes disappear from the undo list, and nothing else about the line
    changes. Which strokes are neighbours, and what a user is left with, is the subject of
    `HistoryPaintRuns`. */
module HistoryCompaction {
  import opened Wrappers
  import opened HistoryThreads
  import opened History
  import opened HistorySteps

  predicate SessionPaint(e: Entry, sid: nat) {
    e.kind == Paint && e.session == sid
  }

  predicate Mergeable(a: Entry, b: Entry, sid: nat) {
    SessionPaint(a, sid) && SessionPaint(b, sid) && a.after == b.before
  }

  function Combine(a: Entry, b: Entry, title: string): Entry {
    a.(title := title, after := b.after, delta := Merge(a.delta, b.delta))
  }

  /** The number of leading edges that end at or before the cursor. */
  function AppliedCount(es: seq<Entry>, t: nat): (n: nat)
    ensures n <= |es|
  {
    if es == [] || es[0].after > t then 0 else 1 + AppliedCount(es[1..], t)
  }

  /** The edges with every run of session paint among the first `n` merged into one. */
  function MergeRuns(es: seq<Entry>, n: nat, sid: nat, title: string): seq<Entry>
    requires n <= |es|
    decreases |es|
  {
    if n < 2 then es
    else if Mergeable(es[0], es[1], sid) then MergeRuns([Combine(es[0], es[1], title)] + es[2..], n - 1, sid, title)
    else [es[0]] + MergeRuns(es[1..], n - 1, sid, title)
  }

  /** The timestamps inside those runs. */
  function InsideRuns(es: seq<Entry>, n: nat, sid: nat, title: string): set<nat>
    requires n <= |es|
    decreases |es|
  {
    if n < 2 then {}
    else if Mergeable(es[0], es[1], sid) then
      {es[0].after} + InsideRuns([Combine(es[0], es[1], title)] + es[2..], n - 1, sid, title)
    else InsideRuns(es[1..], n - 1, sid, title)
  }

  /** The archives the merged edges no longer need. */
  function Unreferenced(s: Timeline, merged: seq<Entry>, inside: set<nat>): set<nat> {
    inside - ({s.current} + (if s.floor.Some? then {s.floor.value} else {}) + EndsOf(merged))
  }

  function MergeSession(s: Timeline, title: string): Timeline
    requires s.session.Some?
  {
    var n := AppliedCount(s.entries, s.current);
    var merged := MergeRuns(s.entries, n, s.session.value.id, title);
    var inside := InsideRuns(s.entries, n, s.session.value.id, title);
    Erase(s.(entries := merged), Unreferenced(s, merged, inside))
  }

  predicate Closable(s: Timeline, sid: nat) {
    s.operation.None? && s.session.Some? && s.session.value.id == sid
  }

  /** Merges the runs of the open session; a timeline without runs is left alone. */
  function Compact(s: Timeline, sid: nat, title: string, bytes: Timeline -> nat): Option<Timeline> {
    if !Closable(s, sid) then None
    else if InsideRuns(s.entries, AppliedCount(s.entries, s.current), sid, title) == {} then Some(s)
    else Some(Enforce(MergeSession(s, title), bytes, true))
  }

  function EndSession(s: Timeline): Timeline {
    s.(floor := None, session := None)
  }

  /** Merges the runs and ends the session. A session with a commit of its own also gives up the
      whole redo branch; one without keeps it. */
  function Close(s: Timeline, sid: nat, title: string, bytes: Timeline -> nat): Option<Timeline> {
    if !Closable(s, sid) then None
    else
      var merged := MergeSession(s, title);
      var effective := s.session.value.effective;
      Some(Enforce(EndSession(if effective then TruncateRedo(merged) else merged), bytes, !effective))
  }

  // ---------- what merging does to a line ----------

  function Without(ts: seq<nat>, gone: set<nat>): (r: seq<nat>)
    ensures forall t :: t in r <==> t in ts && t !in gone
  {
    if ts == [] then []
    else
      assert ts == [ts[0]] + ts[1..];
      (if ts[0] in gone then [] else [ts[0]]) + Without(ts[1..], gone)
  }

  lemma {:induction false} WithoutAppend(a: seq<nat>, b: seq<nat>, gone: set<nat>)
    ensures Without(a + b, gone) == Without(a, gone) + Without(b, gone)
  {
    if a == [] {
      assert a + b == b;
    } else {
      assert (a + b)[1..] == a[1..] + b;
      WithoutAppend(a[1..], b, gone);
    }
  }

  lemma NothingLeft(gone: set<nat>)
    ensures Without([], gone) == []
  {
  }

  lemma WithoutLast(a: seq<nat>, t: nat, gone: set<nat>)
    ensures Without(a + [t], gone) == Without(a, gone) + if t in gone then [] else [t]
  {
    WithoutAppend(a, [t], gone);
    assert Without([t], gone) == if t in gone then [] else [t];
  }

  lemma {:induction false} WithoutTwice(a: seq<nat>, g: set<nat>, h: set<nat>)
    ensures Without(Without(a, g), h) == Without(a, g + h)
  {
    if a != [] {
      var head := if a[0] in g then [] else [a[0]];
      assert Without(a, g) == head + Without(a[1..], g);
      WithoutAppend(head, Without(a[1..], g), h);
      WithoutTwice(a[1..], g, h);
    }
  }

  /** `ms` is `es` with the neighbouring edges `a` and `b` merged. */
  ghost predicate Merges(es: seq<Entry>, ms: seq<Entry>, a: Entry, b: Entry, c: Entry) {
    && a in es && b in es && a.after == b.before && c.before == a.before && c.after == b.after
    && (forall e :: e in ms <==> e == c || (e in es && e != a && e != b))
  }

  lemma {:induction false} MergeHidesPast(es: seq<Entry>, ms: seq<Entry>, a: Entry, b: Entry, c: Entry, t: nat, top: nat)
    requires Threaded(es, top) && Threaded(ms, top) && Merges(es, ms, a, b, c) && t != a.after
    ensures Past(ms, t) == Without(Past(es, t), {a.after})
    decreases t
  {
    hide Threaded, Without;
    ThreadsPointForward(es, top);
    ThreadsPointForward(ms, top);
    EdgeBounds(es, top, a);
    EdgeBounds(es, top, b);
    NothingLeft({a.after});
    match UndoEntry(es, t) {
      case None => assert UndoEntry(ms, t).None?;
      case Some(e) =>
        if e == b {
          UniqueUndo(ms, top, c);
          UniqueUndo(es, top, a);
          MergeHidesPast(es, ms, a, b, c, a.before, top);
          assert Past(es, t) == Past(es, a.before) + [a.before] + [a.after];
          WithoutLast(Past(es, a.before) + [a.before], a.after, {a.after});
          WithoutLast(Past(es, a.before), a.before, {a.after});
        } else {
          if e.before == a.after {
            UniqueRedo(es, top, e);
            UniqueRedo(es, top, b);
          }
          UniqueUndo(ms, top, e);
          MergeHidesPast(es, ms, a, b, c, e.before, top);
          WithoutLast(Past(es, e.before), e.before, {a.after});
        }
    }
  }

  lemma {:induction false} MergeHidesFuture(es: seq<Entry>, ms: seq<Entry>, a: Entry, b: Entry, c: Entry, t: nat, top: nat)
    requires Threaded(es, top) && Threaded(ms, top) && Merges(es, ms, a, b, c) && t != a.after && t < top
    ensures Future(ms, t, top) == Without(Future(es, t, top), {a.after})
    decreases top - t
  {
    hide Threaded;
    ThreadsPointForward(es, top);
    ThreadsPointForward(ms, top);
    EdgeBounds(es, top, a);
    EdgeBounds(es, top, b);
    match RedoEntry(es, t) {
      case None => assert RedoEntry(ms, t).None?;
      case Some(e) =>
        EdgeBounds(es, top, e);
        if e == a {
          UniqueRedo(ms, top, c);
          UniqueRedo(es, top, b);
          MergeHidesFuture(es, ms, a, b, c, b.after, top);
          assert Future(es, t, top) == [a.after] + ([b.after] + Future(es, b.after, top));
        } else {
          if e.after == a.after {
            UniqueUndo(es, top, e);
            UniqueUndo(es, top, a);
          }
          UniqueRedo(ms, top, e);
          MergeHidesFuture(es, ms, a, b, c, e.after, top);
        }
    }
  }

  // ---------- from one merge to all runs ----------

  /** The edges before position `p`, `c` in place of the two edges there, and the rest. */
  ghost predicate Spliced(full: seq<Entry>, ms: seq<Entry>, p: nat, c: Entry) {
    && p + 1 < |full| && |ms| == |full| - 1
    && c.before == full[p].before && c.after == full[p + 1].after
    && (forall i | 0 <= i < p :: ms[i] == full[i])
    && ms[p] == c
    && (forall i | p < i < |ms| :: ms[i] == full[i + 1])
  }

  lemma SplicedEnds(full: seq<Entry>, ms: seq<Entry>, p: nat, c: Entry, i: nat)
    requires Spliced(full, ms, p, c) && i < |ms|
    ensures ms[i].after == full[if i < p then i else i + 1].after
    ensures ms[i].before == full[if i <= p then i else i + 1].before
  {
  }

  lemma EdgeAt(es: seq<Entry>, top: nat, i: nat)
    requires Threaded(es, top) && i < |es|
    ensures es[i].before < es[i].after < top
    ensures forall j | i < j < |es| :: es[i].after < es[j].after && es[i].before != es[j].before
  {
    assert es[i] in es;
  }

  lemma SplicedThreads(full: seq<Entry>, ms: seq<Entry>, p: nat, c: Entry, top: nat)
    requires Threaded(full, top) && Spliced(full, ms, p, c) && full[p].after == full[p + 1].before
    ensures Threaded(ms, top)
  {
    assert |ms| == |full| - 1 && p + 1 < |full|;
    forall i, j | 0 <= i <= j < |ms|
      ensures ms[i].before < ms[i].after < top
      ensures i < j ==> ms[i].after < ms[j].after && ms[i].before != ms[j].before
    {
      hide Threaded, Spliced;
      SplicedEnds(full, ms, p, c, i);
      SplicedEnds(full, ms, p, c, j);
      EdgeAt(full, top, i);
      EdgeAt(full, top, i + 1);
      EdgeAt(full, top, p);
    }
    assert forall e <- ms :: exists i | 0 <= i < |ms| :: ms[i] == e;
  }

  lemma OnlyOnePlace(full: seq<Entry>, p: nat, top: nat)
    requires Threaded(full, top) && p < |full|
    ensures forall i | 0 <= i < |full| && i != p :: full[i] != full[p]
  {
  }

  lemma SplicedFrom(full: seq<Entry>, ms: seq<Entry>, p: nat, c: Entry, e: Entry, i: nat)
    requires Spliced(full, ms, p, c) && i < |ms| && ms[i] == e && i != p
    requires (forall j | 0 <= j < |full| && j != p :: full[j] != full[p])
    requires (forall j | 0 <= j < |full| && j != p + 1 :: full[j] != full[p + 1])
    ensures e in full && e != full[p] && e != full[p + 1]
  {
    assert e == full[if i < p then i else i + 1];
  }

  lemma SplicedInto(full: seq<Entry>, ms: seq<Entry>, p: nat, c: Entry, i: nat)
    requires Spliced(full, ms, p, c) && i < |full| && i != p && i != p + 1
    ensures full[i] in ms
  {
    assert full[i] == ms[if i < p then i else i - 1];
  }

  lemma SplicedMerges(full: seq<Entry>, ms: seq<Entry>, p: nat, c: Entry, top: nat)
    requires Threaded(full, top) && Spliced(full, ms, p, c) && full[p].after == full[p + 1].before
    ensures Merges(full, ms, full[p], full[p + 1], c)
  {
    hide Threaded;
    var a, b := full[p], full[p + 1];
    OnlyOnePlace(full, p, top);
    OnlyOnePlace(full, p + 1, top);
    forall e: Entry ensures e in ms <==> e == c || (e in full && e != a && e != b) {
      hide Spliced;
      if e in full && e != a && e != b {
        var i :| 0 <= i < |full| && full[i] == e;
        SplicedInto(full, ms, p, c, i);
      }
      assert c in ms by { SplicedHolds(full, ms, p, c); }
      if e in ms && e != c {
        var i :| 0 <= i < |ms| && ms[i] == e;
        SplicedHolds(full, ms, p, c);
        SplicedFrom(full, ms, p, c, e, i);
      }
    }
  }

  lemma SplicedHolds(full: seq<Entry>, ms: seq<Entry>, p: nat, c: Entry)
    requires Spliced(full, ms, p, c)
    ensures p < |ms| && ms[p] == c && c in ms
  {
  }

  lemma MergePair(pre: seq<Entry>, es: seq<Entry>, sid: nat, title: string, top: nat)
    requires |es| >= 2 && Threaded(pre + es, top) && Mergeable(es[0], es[1], sid)
    ensures var c := Combine(es[0], es[1], title);
            var ms := pre + ([c] + es[2..]);
            Threaded(ms, top) && Merges(pre + es, ms, es[0], es[1], c)
  {
    hide Threaded, Merges;
    var c := Combine(es[0], es[1], title);
    var full, ms := pre + es, pre + ([c] + es[2..]);
    assert Spliced(full, ms, |pre|, c);
    SplicedThreads(full, ms, |pre|, c, top);
    SplicedMerges(full, ms, |pre|, c, top);
  }

  lemma ShiftOne(pre: seq<Entry>, es: seq<Entry>, rest: seq<Entry>)
    requires |es| >= 1
    ensures pre + es == (pre + [es[0]]) + es[1..]
    ensures pre + ([es[0]] + rest) == (pre + [es[0]]) + rest
  {
  }

  /** Merging all runs takes exactly the timestamps inside them out of every undo and redo list. */
  lemma {:induction false} MergeRunsHides(pre: seq<Entry>, es: seq<Entry>, n: nat, sid: nat, title: string, t: nat, top: nat)
    requires n <= |es| && Threaded(pre + es, top) && t !in InsideRuns(es, n, sid, title) && t < top
    ensures Threaded(pre + MergeRuns(es, n, sid, title), top)
    ensures Past(pre + MergeRuns(es, n, sid, title), t) == Without(Past(pre + es, t), InsideRuns(es, n, sid, title))
    ensures Future(pre + MergeRuns(es, n, sid, title), t, top) == Without(Future(pre + es, t, top), InsideRuns(es, n, sid, title))
    decreases |es|
  {
    hide Threaded, Past, Future, Merges;
    ThreadsPointForward(pre + es, top);
    if n < 2 {
      WithoutNothing(Past(pre + es, t), {});
      WithoutNothing(Future(pre + es, t, top), {});
    } else if Mergeable(es[0], es[1], sid) {
      var c := Combine(es[0], es[1], title);
      var full, ms := pre + es, pre + ([c] + es[2..]);
      MergePair(pre, es, sid, title, top);
      assert es[0] in full by { assert full[|pre|] == es[0]; }
      MergeHidesPast(full, ms, es[0], es[1], c, t, top);
      MergeHidesFuture(full, ms, es[0], es[1], c, t, top);
      MergeRunsHides(pre, [c] + es[2..], n - 1, sid, title, t, top);
      var inner := InsideRuns([c] + es[2..], n - 1, sid, title);
      WithoutTwice(Past(full, t), {es[0].after}, inner);
      WithoutTwice(Future(full, t, top), {es[0].after}, inner);
    } else {
      ShiftOne(pre, es, MergeRuns(es[1..], n - 1, sid, title));
      MergeRunsHides(pre + [es[0]], es[1..], n - 1, sid, title, t, top);
    }
  }

  lemma {:induction false} WithoutNothing(a: seq<nat>, gone: set<nat>)
    requires forall t <- a :: t !in gone
    ensures Without(a, gone) == a
  {
    if a != [] {
      WithoutNothing(a[1..], gone);
    }
  }

  lemma {:induction false} InsideIsEarlier(es: seq<Entry>, n: nat, sid: nat, title: string, bound: nat)
    requires n <= |es|
    requires forall i, j | 0 <= i < j < n :: es[i].after < es[j].after
    requires forall i | 0 <= i < n :: es[i].after <= bound
    ensures forall x <- InsideRuns(es, n, sid, title) :: x < bound
    decreases |es|
  {
    if n >= 2 {
      if Mergeable(es[0], es[1], sid) {
        InsideIsEarlier([Combine(es[0], es[1], title)] + es[2..], n - 1, sid, title, bound);
      } else {
        InsideIsEarlier(es[1..], n - 1, sid, title, bound);
      }
    }
  }

  lemma {:induction false} AppliedIsEarlier(es: seq<Entry>, t: nat)
    ensures forall i | 0 <= i < AppliedCount(es, t) :: es[i].after <= t
  {
    if es != [] && es[0].after <= t {
      AppliedIsEarlier(es[1..], t);
    }
  }

  lemma {:induction false} MergedEnds(es: seq<Entry>, n: nat, sid: nat, title: string)
    requires n <= |es|
    ensures EndsOf(MergeRuns(es, n, sid, title)) <= EndsOf(es)
    decreases |es|
  {
    if n >= 2 {
      if Mergeable(es[0], es[1], sid) {
        var c := Combine(es[0], es[1], title);
        MergedEnds([c] + es[2..], n - 1, sid, title);
        EndsOfMerged(es, c);
      } else {
        MergedEnds(es[1..], n - 1, sid, title);
        assert EndsOf([es[0]] + MergeRuns(es[1..], n - 1, sid, title)) <= {es[0].before, es[0].after} + EndsOf(es[1..]);
        assert EndsOf(es[1..]) <= EndsOf(es);
      }
    }
  }

  ghost predicate StartsIn(e: Entry, es: seq<Entry>) {
    exists f <- es :: f.before == e.before
  }

  lemma {:induction false} MergedBefores(es: seq<Entry>, n: nat, sid: nat, title: string)
    requires n <= |es|
    ensures forall e <- MergeRuns(es, n, sid, title) :: StartsIn(e, es)
    decreases |es|
  {
    if n >= 2 {
      var merged := MergeRuns(es, n, sid, title);
      assert es[0] in es;
      if Mergeable(es[0], es[1], sid) {
        var cs := [Combine(es[0], es[1], title)] + es[2..];
        MergedBefores(cs, n - 1, sid, title);
        assert cs[0].before == es[0].before && forall c <- cs :: c == cs[0] || c in es;
        forall e | e in merged ensures StartsIn(e, es) {
          assert StartsIn(e, cs);
        }
      } else {
        MergedBefores(es[1..], n - 1, sid, title);
        forall e | e in merged ensures StartsIn(e, es) {
          assert e == es[0] || StartsIn(e, es[1..]);
        }
      }
    }
  }

  lemma EndsOfMerged(es: seq<Entry>, c: Entry)
    requires |es| >= 2 && c.before == es[0].before && c.after == es[1].after
    ensures EndsOf([c] + es[2..]) <= EndsOf(es)
  {
    assert es == [es[0], es[1]] + es[2..];
  }

  ghost function Inside(s: Timeline): set<nat>
    requires s.session.Some?
  {
    InsideRuns(s.entries, AppliedCount(s.entries, s.current), s.session.value.id, "")
  }

  /** The title given to merged strokes has no bearing on which strokes merge. */
  lemma {:induction false} TitleIsFree(es: seq<Entry>, fs: seq<Entry>, n: nat, sid: nat, a: string, b: string)
    requires n <= |es| && |fs| == |es|
    requires forall i | 0 <= i < |es| :: fs[i].(title := es[i].title) == es[i]
    ensures InsideRuns(es, n, sid, a) == InsideRuns(fs, n, sid, b)
    decreases |es|
  {
    if n >= 2 {
      assert Mergeable(es[0], es[1], sid) == Mergeable(fs[0], fs[1], sid);
      if Mergeable(es[0], es[1], sid) {
        TitleIsFree([Combine(es[0], es[1], a)] + es[2..], [Combine(fs[0], fs[1], b)] + fs[2..], n - 1, sid, a, b);
      } else {
        TitleIsFree(es[1..], fs[1..], n - 1, sid, a, b);
      }
    }
  }

  lemma MergeKeepsInv(s: Timeline, title: string)
    requires Inv(s) && s.operation.None? && s.session.Some?
    ensures Inv(MergeSession(s, title)) && KeepsArchives(s, MergeSession(s, title))
  {
    hide Threaded, MergeRuns, InsideRuns, AppliedCount;
    var n, sid := AppliedCount(s.entries, s.current), s.session.value.id;
    var u := MergeSession(s, title);
    MergedEnds(s.entries, n, sid, title);
    assert Threaded(u.entries, u.nextTimestamp) by { MergedThreads(s.entries, n, sid, title, s.nextTimestamp); }
    MergedBefores(s.entries, n, sid, title);
    forall e <- u.entries ensures e.before in u.snapshots && e.after in Available(u) {
      assert e.before in EndsOf(u.entries) && e.after in EndsOf(u.entries) && StartsIn(e, s.entries);
      var f :| f in s.entries && f.before == e.before;
    }
    assert MarksInv(u) by { hide EdgesInv; }
  }

  lemma {:induction false} MergedThreads(es: seq<Entry>, n: nat, sid: nat, title: string, top: nat)
    requires n <= |es| && Threaded(es, top)
    ensures Threaded(MergeRuns(es, n, sid, title), top)
  {
    hide Threaded, MergeRuns;
    assert [] + es == es;
    AllThreads([], es, n, sid, title, top);
    assert [] + es == es && [] + MergeRuns(es, n, sid, title) == MergeRuns(es, n, sid, title);
  }

  lemma {:induction false} AllThreads(pre: seq<Entry>, es: seq<Entry>, n: nat, sid: nat, title: string, top: nat)
    requires n <= |es| && Threaded(pre + es, top)
    ensures Threaded(pre + MergeRuns(es, n, sid, title), top)
    decreases |es|
  {
    hide Threaded;
    if n < 2 {
    } else if Mergeable(es[0], es[1], sid) {
      MergePair(pre, es, sid, title, top);
      AllThreads(pre, [Combine(es[0], es[1], title)] + es[2..], n - 1, sid, title, top);
    } else {
      ShiftOne(pre, es, MergeRuns(es[1..], n - 1, sid, title));
      AllThreads(pre + [es[0]], es[1..], n - 1, sid, title, top);
    }
  }

  /** Retained archives are the same values, and the cursor and its archive stay. */
  ghost predicate KeepsArchives(s: Timeline, u: Timeline) {
    && (forall t <- u.snapshots :: t in s.snapshots && u.snapshots[t] == s.snapshots[t])
    && (s.current in s.snapshots ==> s.current in u.snapshots)
    && u.current == s.current
  }

  /** The undo list loses the timestamps inside the runs and nothing else; the redo list is
      untouched. */
  lemma MergeHidesInside(s: Timeline, title: string)
    requires Inv(s) && s.operation.None? && s.session.Some? && Inv(MergeSession(s, title))
    ensures UndoList(MergeSession(s, title)) == Without(UndoList(s), Inside(s))
    ensures RedoList(MergeSession(s, title)) == RedoList(s)
  {
    hide MarksInv, MergeRuns, InsideRuns, AppliedCount, Past, Future;
    var es, n, sid, top := s.entries, AppliedCount(s.entries, s.current), s.session.value.id, s.nextTimestamp;
    TitleIsFree(es, es, n, sid, title, "");
    AppliedIsEarlier(es, s.current);
    InsideIsEarlier(es, n, sid, title, s.current);
    MergeRunsHides([], es, n, sid, title, s.current, top);
    assert [] + es == es && [] + MergeRuns(es, n, sid, title) == MergeRuns(es, n, sid, title);
    ListsAreArchived(s);
    WithoutNothing(RedoList(s), Inside(s));
  }

  /** Compaction on its own. */
  lemma CompactHidesInside(s: Timeline, sid: nat, title: string, bytes: Timeline -> nat) returns (k: nat)
    requires Inv(s) && Compact(s, sid, title, bytes).Some?
    ensures var u := Compact(s, sid, title, bytes).value;
            && Inv(u) && KeepsArchives(s, u) && RedoList(u) == RedoList(s)
            && k <= |Without(UndoList(s), Inside(s))| && UndoList(u) == Without(UndoList(s), Inside(s))[k..]
  {
    hide EdgesInv, MarksInv, MergeSession, Past, Future, InsideRuns, Enforce;
    TitleIsFree(s.entries, s.entries, AppliedCount(s.entries, s.current), sid, title, "");
    if Inside(s) == {} {
      k := 0;
      WithoutNothing(UndoList(s), {});
    } else {
      MergeKeepsInv(s, title);
      MergeHidesInside(s, title);
      var m;
      k, m := EnforceTrims(MergeSession(s, title), bytes, true);
    }
  }

  lemma EndSessionKeepsLists(s: Timeline)
    requires Inv(s)
    ensures Inv(EndSession(s)) && UndoList(EndSession(s)) == UndoList(s) && RedoList(EndSession(s)) == RedoList(s)
  {
    hide Threaded;
  }

  /** Closing a session merges its runs; it empties the redo list if the session committed
      something, and keeps it whole, however short memory is, if it did not. */
  lemma CloseHidesInside(s: Timeline, sid: nat, title: string, bytes: Timeline -> nat) returns (k: nat)
    requires Inv(s) && Close(s, sid, title, bytes).Some?
    ensures var u := Close(s, sid, title, bytes).value;
            && Inv(u) && KeepsArchives(s, u) && u.session == None && u.floor == None
            && RedoList(u) == (if s.session.value.effective then [] else RedoList(s))
            && k <= |Without(UndoList(s), Inside(s))| && UndoList(u) == Without(UndoList(s), Inside(s))[k..]
  {
    hide EdgesInv, MarksInv, MergeSession, TruncateRedo, Past, InsideRuns, Enforce;
    var merged, effective := MergeSession(s, title), s.session.value.effective;
    MergeKeepsInv(s, title);
    MergeHidesInside(s, title);
    assert merged.operation.None? && merged.session == s.session by { MergeKeepsMarks(s, title); }
    var cut := if effective then TruncateRedo(merged) else merged;
    if effective {
      TruncateKeepsInv(merged);
      TruncateCutsRedo(merged);
    }
    EndSessionKeepsLists(cut);
    var m;
    k, m := EnforceTrims(EndSession(cut), bytes, !effective);
  }

  lemma MergeKeepsMarks(s: Timeline, title: string)
    requires s.session.Some?
    ensures var u := MergeSession(s, title);
            && u == s.(entries := u.entries, snapshots := u.snapshots, saved := u.saved, savedEvicted := u.savedEvicted)
            && ((u.saved == s.saved && u.savedEvicted == s.savedEvicted) || SavedLost(s, u))
  {
    hide MergeRuns, InsideRuns, AppliedCount, EndsOf;
  }
}
