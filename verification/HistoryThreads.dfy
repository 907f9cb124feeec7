/** The topology of the undo history: entries are edges between logical timestamps, and the
    undo and redo lists are the two halves of the thread that runs through the cursor.

    Models the entry searches and the edge walk of TimestampedHistory.cpp. */
module HistoryThreads {
  import opened Wrappers

  type Bytes = seq<bv8>

  datatype OperationKind = NonPaint | Paint

  /** Renderer hint stored beside an edge. The source keeps sorted, duplicate-free vectors. */
  datatype SceneDelta = SceneDelta(objectIds: set<nat>, volumeIds: set<nat>, instanceIds: set<nat>, plateIds: set<string>)

  const EMPTY_DELTA := SceneDelta({}, {}, {}, {})

  function Merge(a: SceneDelta, b: SceneDelta): SceneDelta {
    SceneDelta(a.objectIds + b.objectIds, a.volumeIds + b.volumeIds, a.instanceIds + b.instanceIds, a.plateIds + b.plateIds)
  }

  lemma MergeIsMonoid(a: SceneDelta, b: SceneDelta, c: SceneDelta)
    ensures Merge(EMPTY_DELTA, a) == a == Merge(a, EMPTY_DELTA)
    ensures Merge(Merge(a, b), c) == Merge(a, Merge(b, c))
  {
  }

  datatype Entry = Entry(id: nat, title: string, before: nat, after: nat, delta: SceneDelta, kind: OperationKind, session: nat)

  /** Every edge points forward in time. */
  ghost predicate Forward(es: seq<Entry>) {
    forall e <- es :: e.before < e.after
  }

  /** Edges are listed by strictly growing successor, below `top`, and no two leave the same
      timestamp: the edges form disjoint threads. */
  ghost predicate Threaded(es: seq<Entry>, top: nat) {
    && Forward(es)
    && (forall i | 0 <= i < |es| :: es[i].after < top)
    && (forall i, j | 0 <= i < j < |es| :: es[i].after < es[j].after)
    && (forall i, j | 0 <= i < j < |es| :: es[i].before != es[j].before)
  }

  function UndoEntry(es: seq<Entry>, t: nat): (r: Option<Entry>)
    ensures r.Some? ==> r.value in es && r.value.after == t
    ensures r.None? ==> forall e <- es :: e.after != t
  {
    if es == [] then None
    else if es[|es| - 1].after == t then Some(es[|es| - 1])
    else
      assert es == es[..|es| - 1] + [es[|es| - 1]];
      UndoEntry(es[..|es| - 1], t)
  }

  function RedoEntry(es: seq<Entry>, t: nat): (r: Option<Entry>)
    ensures r.Some? ==> r.value in es && r.value.before == t
    ensures r.None? ==> forall e <- es :: e.before != t
  {
    if es == [] then None
    else if es[0].before == t then Some(es[0])
    else
      assert es == [es[0]] + es[1..];
      RedoEntry(es[1..], t)
  }

  /** The timestamps Undo visits from `t`, oldest first. */
  ghost function Past(es: seq<Entry>, t: nat): seq<nat>
    requires Forward(es)
    decreases t
  {
    match UndoEntry(es, t)
    case None => []
    case Some(e) => Past(es, e.before) + [e.before]
  }

  /** The timestamps Redo visits from `t`, nearest first. */
  ghost function Future(es: seq<Entry>, t: nat, top: nat): seq<nat>
    requires Threaded(es, top) && t < top
    decreases top - t
  {
    match RedoEntry(es, t)
    case None => []
    case Some(e) => [e.after] + Future(es, e.after, top)
  }

  /** The whole thread through `t`: what Undo reaches, `t` itself, what Redo reaches. */
  ghost function Line(es: seq<Entry>, t: nat, top: nat): seq<nat>
    requires Threaded(es, top) && t < top
  {
    Past(es, t) + [t] + Future(es, t, top)
  }

  /** The union of the deltas on the edges between `from` and `to`, if edges connect them. */
  function Collect(es: seq<Entry>, from: nat, to: nat): Option<SceneDelta>
    requires Forward(es)
    decreases if to < from then from - to else to - from
  {
    if from == to then Some(EMPTY_DELTA)
    else if to < from then
      match UndoEntry(es, from)
      case None => None
      case Some(e) =>
        if e.before < to then None
        else match Collect(es, e.before, to)
             case None => None
             case Some(d) => Some(Merge(e.delta, d))
    else
      match RedoEntry(es, from)
      case None => None
      case Some(e) =>
        if e.after > to then None
        else match Collect(es, e.after, to)
             case None => None
             case Some(d) => Some(Merge(e.delta, d))
  }

  // ---------- threads have one way back and one way forward ----------

  lemma ThreadsPointForward(es: seq<Entry>, top: nat)
    requires Threaded(es, top)
    ensures Forward(es)
  {
  }

  lemma UniqueUndo(es: seq<Entry>, top: nat, e: Entry)
    requires Threaded(es, top) && e in es
    ensures UndoEntry(es, e.after) == Some(e)
  {
    var f := UndoEntry(es, e.after).value;
    var i :| 0 <= i < |es| && es[i] == e;
    var j :| 0 <= j < |es| && es[j] == f;
  }

  lemma UniqueRedo(es: seq<Entry>, top: nat, e: Entry)
    requires Threaded(es, top) && e in es
    ensures RedoEntry(es, e.before) == Some(e)
  {
    var f := RedoEntry(es, e.before).value;
    var i :| 0 <= i < |es| && es[i] == e;
    var j :| 0 <= j < |es| && es[j] == f;
  }

  lemma {:induction false} PastIsAscending(es: seq<Entry>, t: nat)
    requires Forward(es)
    ensures forall i | 0 <= i < |Past(es, t)| :: Past(es, t)[i] < t
    ensures forall i, j | 0 <= i < j < |Past(es, t)| :: Past(es, t)[i] < Past(es, t)[j]
    ensures forall u <- Past(es, t) :: exists e <- es :: e.before == u
    decreases t
  {
    match UndoEntry(es, t) {
      case None =>
      case Some(e) => PastIsAscending(es, e.before);
    }
  }

  lemma {:induction false} FutureIsAscending(es: seq<Entry>, t: nat, top: nat)
    requires Threaded(es, top) && t < top
    ensures forall i | 0 <= i < |Future(es, t, top)| :: t < Future(es, t, top)[i] < top
    ensures forall i, j | 0 <= i < j < |Future(es, t, top)| :: Future(es, t, top)[i] < Future(es, t, top)[j]
    ensures forall u <- Future(es, t, top) :: exists e <- es :: e.after == u
    decreases top - t
  {
    match RedoEntry(es, t) {
      case None =>
      case Some(e) => FutureIsAscending(es, e.after, top);
    }
  }

  // ---------- walking an edge keeps the line ----------

  lemma EdgeKeepsLine(es: seq<Entry>, top: nat, e: Entry)
    requires Threaded(es, top) && e in es
    ensures Past(es, e.after) == Past(es, e.before) + [e.before]
    ensures Future(es, e.before, top) == [e.after] + Future(es, e.after, top)
    ensures Line(es, e.before, top) == Line(es, e.after, top)
  {
    UniqueUndo(es, top, e);
    UniqueRedo(es, top, e);
  }

  lemma {:induction false} BackKeepsLine(es: seq<Entry>, from: nat, to: nat, top: nat)
    requires Threaded(es, top) && from < top && to in Past(es, from)
    ensures to < from && Line(es, to, top) == Line(es, from, top)
    decreases from
  {
    var e := UndoEntry(es, from).value;
    EdgeKeepsLine(es, top, e);
    if to != e.before {
      BackKeepsLine(es, e.before, to, top);
    }
  }

  lemma {:induction false} ForwardKeepsLine(es: seq<Entry>, from: nat, to: nat, top: nat)
    requires Threaded(es, top) && from < top && to in Future(es, from, top)
    ensures from < to < top && Line(es, to, top) == Line(es, from, top)
    decreases top - from
  {
    var e := RedoEntry(es, from).value;
    EdgeKeepsLine(es, top, e);
    if to != e.after {
      ForwardKeepsLine(es, e.after, to, top);
    }
  }

  /** Navigating to any timestamp of the line leaves the line as it is. */
  lemma NavigationKeepsLine(es: seq<Entry>, from: nat, to: nat, top: nat)
    requires Threaded(es, top) && from < top
    requires to in Line(es, from, top)
    ensures to < top && Line(es, to, top) == Line(es, from, top)
  {
    if to in Past(es, from) {
      BackKeepsLine(es, from, to, top);
    } else if to in Future(es, from, top) {
      ForwardKeepsLine(es, from, to, top);
    }
  }

  lemma EdgeBounds(es: seq<Entry>, top: nat, e: Entry)
    requires Threaded(es, top) && e in es
    ensures e.before < e.after < top
  {
  }

  lemma {:induction false} CollectBack(es: seq<Entry>, from: nat, to: nat, top: nat)
    requires Threaded(es, top) && Forward(es) && to <= from < top
    ensures Collect(es, from, to).Some? <==> to == from || to in Past(es, from)
    decreases from
  {
    hide Threaded;
    PastIsAscending(es, from);
    if to < from && UndoEntry(es, from).Some? {
      var e := UndoEntry(es, from).value;
      PastIsAscending(es, e.before);
      assert Past(es, from) == Past(es, e.before) + [e.before];
      if to <= e.before {
        CollectBack(es, e.before, to, top);
      }
    }
  }

  lemma {:induction false} CollectForward(es: seq<Entry>, from: nat, to: nat, top: nat)
    requires Threaded(es, top) && Forward(es) && from <= to && from < top
    ensures Collect(es, from, to).Some? <==> to == from || to in Future(es, from, top)
    decreases top - from
  {
    hide Threaded, Forward;
    if from < to && RedoEntry(es, from).Some? {
      var e := RedoEntry(es, from).value;
      EdgeBounds(es, top, e);
      FutureIsAscending(es, e.after, top);
      assert Future(es, from, top) == [e.after] + Future(es, e.after, top);
      if e.after <= to {
        CollectForward(es, e.after, to, top);
      }
    }
  }

  /** The edge walk succeeds exactly for the timestamps of the line through `from`. */
  lemma CollectIffOnLine(es: seq<Entry>, from: nat, to: nat, top: nat)
    requires Threaded(es, top) && from < top
    ensures Forward(es) && (Collect(es, from, to).Some? <==> to in Line(es, from, top))
  {
    hide Threaded;
    ThreadsPointForward(es, top);
    PastIsAscending(es, from);
    FutureIsAscending(es, from, top);
    if to <= from {
      CollectBack(es, from, to, top);
    } else {
      CollectForward(es, from, to, top);
    }
  }

  // ---------- dropping the edges at one timestamp cuts the line there ----------

  /** The edges whose two ends lie in `kept`, in order. */
  function Retain(es: seq<Entry>, kept: set<nat>): (r: seq<Entry>)
    ensures forall e :: e in r <==> e in es && e.before in kept && e.after in kept
  {
    if es == [] then []
    else
      assert es == [es[0]] + es[1..];
      (if es[0].before in kept && es[0].after in kept then [es[0]] else []) + Retain(es[1..], kept)
  }

  lemma {:induction false} RetainStaysThreaded(es: seq<Entry>, kept: set<nat>, top: nat)
    requires Threaded(es, top)
    ensures Threaded(Retain(es, kept), top)
  {
    if es != [] {
      RetainStaysThreaded(es[1..], kept, top);
      var rest := Retain(es[1..], kept);
      forall e <- rest ensures es[0].after < e.after && es[0].before != e.before {
        assert e in es[1..];
      }
      assert es[0] in es;
      PrependStaysThreaded(es[0], rest, top);
    }
  }

  lemma PrependStaysThreaded(e: Entry, rest: seq<Entry>, top: nat)
    requires Threaded(rest, top) && e.before < e.after < top
    requires forall f <- rest :: e.after < f.after && e.before != f.before
    ensures Threaded([e] + rest, top)
  {
  }

  /** `cut` is what remains of `es` when timestamp `x` is lost. */
  ghost predicate LosesTimestamp(es: seq<Entry>, cut: seq<Entry>, x: nat) {
    forall e :: e in cut <==> e in es && e.before != x && e.after != x
  }

  lemma {:induction false} PastAfterLoss(es: seq<Entry>, cut: seq<Entry>, x: nat, t: nat, top: nat) returns (k: nat)
    requires Threaded(es, top) && Threaded(cut, top) && LosesTimestamp(es, cut, x) && t != x
    ensures k <= |Past(es, t)| && Past(cut, t) == Past(es, t)[k..]
    ensures k > 0 ==> Past(es, t)[k - 1] == x
    decreases t
  {
    hide Threaded;
    ThreadsPointForward(es, top);
    ThreadsPointForward(cut, top);
    k := 0;
    match UndoEntry(es, t) {
      case None => assert UndoEntry(cut, t).None?;
      case Some(e) =>
        if e.before == x {
          if UndoEntry(cut, t).Some? {
            UniqueUndo(es, top, UndoEntry(cut, t).value);
          }
          k := |Past(es, t)|;
        } else {
          UniqueUndo(cut, top, e);
          k := PastAfterLoss(es, cut, x, e.before, top);
        }
    }
  }

  lemma {:induction false} FutureAfterLoss(es: seq<Entry>, cut: seq<Entry>, x: nat, t: nat, top: nat) returns (m: nat)
    requires Threaded(es, top) && Threaded(cut, top) && LosesTimestamp(es, cut, x) && t != x && t < top
    ensures m <= |Future(es, t, top)| && Future(cut, t, top) == Future(es, t, top)[..m]
    ensures m < |Future(es, t, top)| ==> Future(es, t, top)[m] == x
    decreases top - t
  {
    hide Threaded;
    ThreadsPointForward(es, top);
    ThreadsPointForward(cut, top);
    m := 0;
    match RedoEntry(es, t) {
      case None => assert RedoEntry(cut, t).None?;
      case Some(e) =>
        EdgeBounds(es, top, e);
        if e.after == x {
          if RedoEntry(cut, t).Some? {
            UniqueRedo(es, top, RedoEntry(cut, t).value);
          }
        } else {
          UniqueRedo(cut, top, e);
          var n := FutureAfterLoss(es, cut, x, e.after, top);
          m := n + 1;
          assert Future(es, t, top)[..m] == [e.after] + Future(es, e.after, top)[..n];
        }
    }
  }
}
