/** What the delta of a jump names: exactly what the edges between the cursor and the target name,
    plates included, however many edges there are and whether strokes among them were merged. */
module HistoryDeltas {
  import opened Wrappers
  import opened HistoryThreads
  import opened History
  import opened HistorySteps
  import opened HistoryNavigation
  import opened HistoryCompaction

  datatype Name = ObjectName(object: nat) | VolumeName(volume: nat) | InstanceName(instance: nat) | PlateName(plate: string)

  predicate Names(d: SceneDelta, n: Name) {
    match n
    case ObjectName(id) => id in d.objectIds
    case VolumeName(id) => id in d.volumeIds
    case InstanceName(id) => id in d.instanceIds
    case PlateName(id) => id in d.plateIds
  }

  lemma MergedNames(a: SceneDelta, b: SceneDelta, n: Name)
    ensures Names(Merge(a, b), n) <==> Names(a, n) || Names(b, n)
    ensures !Names(EMPTY_DELTA, n)
  {
  }

  // ---------- what one edit names ----------

  /** The record counts: no earlier one has its id. */
  ghost predicate Counts(objects: seq<MutableObject>, o: MutableObject) {
    exists i | 0 <= i < |objects| :: objects[i] == o && forall j | 0 <= j < i :: objects[j].id != o.id
  }

  lemma {:induction false} LookupCounts(objects: seq<MutableObject>, id: nat, o: MutableObject)
    ensures Lookup(objects, id) == Some(o) <==> Counts(objects, o) && o.id == id
  {
    if objects == [] {
    } else if objects[0].id == id {
      assert objects[0] == o ==> Counts(objects, o);
      if Counts(objects, o) && o.id == id {
        var i :| 0 <= i < |objects| && objects[i] == o && forall j | 0 <= j < i :: objects[j].id != o.id;
        assert i == 0;
      }
    } else {
      LookupCounts(objects[1..], id, o);
      if Counts(objects[1..], o) && o.id == id {
        var i :| 0 <= i < |objects[1..]| && objects[1..][i] == o && forall j | 0 <= j < i :: objects[1..][j].id != o.id;
        assert objects[i + 1] == o;
        forall j | 0 <= j < i + 1 ensures objects[j].id != o.id {
          assert j > 0 ==> objects[j] == objects[1..][j - 1];
        }
      }
      if Counts(objects, o) && o.id == id {
        var i :| 0 <= i < |objects| && objects[i] == o && forall j | 0 <= j < i :: objects[j].id != o.id;
        assert objects[1..][i - 1] == o;
        forall j | 0 <= j < i - 1 ensures objects[1..][j].id != o.id {
          assert objects[1..][j] == objects[j + 1];
        }
      }
    }
  }

  /** The object exists on one side only or its records differ. */
  ghost predicate Differs(before: seq<MutableObject>, after: seq<MutableObject>, id: nat) {
    exists o: MutableObject :: o.id == id && (Counts(before, o) != Counts(after, o))
  }

  lemma LookupDiffers(before: seq<MutableObject>, after: seq<MutableObject>, id: nat)
    ensures Lookup(before, id) != Lookup(after, id) <==> Differs(before, after, id)
  {
    hide Counts, Lookup;
    var b, a := Lookup(before, id), Lookup(after, id);
    forall o: MutableObject | o.id == id
      ensures (Counts(before, o) <==> b == Some(o)) && (Counts(after, o) <==> a == Some(o))
    {
      LookupCounts(before, id, o);
      LookupCounts(after, id, o);
    }
    if b != a {
      if b.Some? {
        assert Counts(before, b.value) && !Counts(after, b.value);
      } else {
        assert Counts(after, a.value) && !Counts(before, a.value);
      }
    }
  }

  /** An object that differs has the part on one side or the other. */
  ghost predicate Touched(before: seq<MutableObject>, after: seq<MutableObject>, o: MutableObject) {
    Differs(before, after, o.id) && (Counts(before, o) || Counts(after, o))
  }

  lemma PartsAreParts(objects: seq<MutableObject>, id: nat, v: nat)
    ensures v in Volumes(objects, id) <==> exists o: MutableObject :: o.id == id && Counts(objects, o) && v in o.volumeIds
    ensures v in Instances(objects, id) <==> exists o: MutableObject :: o.id == id && Counts(objects, o) && v in o.instanceIds
  {
    hide Counts, Lookup;
    forall o: MutableObject | o.id == id ensures Counts(objects, o) <==> Lookup(objects, id) == Some(o) {
      LookupCounts(objects, id, o);
    }
  }

  /** The delta of an edit names exactly the objects that differ, the parts these have before or
      after, and the plates of both scenes. */
  lemma EditNames(before: seq<MutableObject>, beforePlates: set<string>, after: seq<MutableObject>, afterPlates: set<string>, n: Name)
    ensures Names(DeltaBetween(before, beforePlates, after, afterPlates), n) <==>
              match n
              case ObjectName(id) => Differs(before, after, id)
              case VolumeName(v) => exists o: MutableObject :: Touched(before, after, o) && v in o.volumeIds
              case InstanceName(v) => exists o: MutableObject :: Touched(before, after, o) && v in o.instanceIds
              case PlateName(p) => p in beforePlates || p in afterPlates
  {
    hide Counts, Differs, Lookup, Covers, NamesOnly, Volumes, Instances;
    var changed := Changed(before, after);
    forall id: nat ensures id in changed <==> Differs(before, after, id) {
      LookupDiffers(before, after, id);
    }
    match n {
      case ObjectName(_) =>
      case VolumeName(v) =>
        forall id: nat
          ensures v in Volumes(before, id) <==> exists o: MutableObject :: o.id == id && Counts(before, o) && v in o.volumeIds
          ensures v in Volumes(after, id) <==> exists o: MutableObject :: o.id == id && Counts(after, o) && v in o.volumeIds
        {
          PartsAreParts(before, id, v);
          PartsAreParts(after, id, v);
        }
        if id: nat :| id in changed && v in Volumes(before, id) + Volumes(after, id) {
          var o: MutableObject :| o.id == id && (Counts(before, o) || Counts(after, o)) && v in o.volumeIds;
          assert Touched(before, after, o);
        }
        if o: MutableObject :| Touched(before, after, o) && v in o.volumeIds {
          assert o.id in changed && v in Volumes(before, o.id) + Volumes(after, o.id);
        }
      case InstanceName(v) =>
        forall id: nat
          ensures v in Instances(before, id) <==> exists o: MutableObject :: o.id == id && Counts(before, o) && v in o.instanceIds
          ensures v in Instances(after, id) <==> exists o: MutableObject :: o.id == id && Counts(after, o) && v in o.instanceIds
        {
          PartsAreParts(before, id, v);
          PartsAreParts(after, id, v);
        }
        if id: nat :| id in changed && v in Instances(before, id) + Instances(after, id) {
          var o: MutableObject :| o.id == id && (Counts(before, o) || Counts(after, o)) && v in o.instanceIds;
          assert Touched(before, after, o);
        }
        if o: MutableObject :| Touched(before, after, o) && v in o.instanceIds {
          assert o.id in changed && v in Instances(before, o.id) + Instances(after, o.id);
        }
      case PlateName(_) =>
    }
  }

  // ---------- the walk of a jump ----------

  /** The edge lies between the two timestamps on the line through `from`. */
  ghost predicate OnPath(es: seq<Entry>, from: nat, to: nat, top: nat, e: Entry)
    requires Threaded(es, top) && from < top
  {
    && e in es && e.before in Line(es, from, top)
    && (if to < from then to <= e.before < from else from <= e.before < to)
  }

  /** Some edge of the path names it. */
  ghost predicate PathNames(es: seq<Entry>, from: nat, to: nat, top: nat, n: Name)
    requires Threaded(es, top) && from < top
  {
    exists e <- es :: OnPath(es, from, to, top, e) && Names(e.delta, n)
  }

  /** Nothing on the line lies strictly between the two ends of an edge of the line. */
  lemma NothingBetween(es: seq<Entry>, top: nat, e: Entry, t: nat)
    requires Threaded(es, top) && e in es && t in Line(es, e.after, top)
    ensures t <= e.before || t >= e.after
  {
    hide Threaded;
    ThreadsPointForward(es, top);
    EdgeKeepsLine(es, top, e);
    EdgeBounds(es, top, e);
    PastIsAscending(es, e.before);
    FutureIsAscending(es, e.after, top);
  }

  lemma EdgeStartsOnLine(es: seq<Entry>, top: nat, e: Entry)
    requires Threaded(es, top) && e in es
    ensures e.before < e.after < top && Line(es, e.before, top) == Line(es, e.after, top)
    ensures e.before in Line(es, e.after, top) && e.after in Line(es, e.after, top)
  {
    hide Threaded;
    ThreadsPointForward(es, top);
    EdgeBounds(es, top, e);
    EdgeKeepsLine(es, top, e);
  }

  /** Going one edge back, the path is that edge and the rest of the path. */
  lemma PathBack(es: seq<Entry>, to: nat, top: nat, e: Entry, n: Name)
    requires Threaded(es, top) && e in es && to <= e.before < e.after < top
    ensures PathNames(es, e.after, to, top, n) <==> Names(e.delta, n) || PathNames(es, e.before, to, top, n)
  {
    hide Threaded, Line, Names;
    EdgeStartsOnLine(es, top, e);
    forall f | f in es ensures OnPath(es, e.after, to, top, f) <==> f == e || OnPath(es, e.before, to, top, f) {
      if f.before in Line(es, e.after, top) {
        NothingBetween(es, top, e, f.before);
      }
      if f.before == e.before {
        UniqueRedo(es, top, e);
        UniqueRedo(es, top, f);
      }
    }
  }

  lemma PathForward(es: seq<Entry>, to: nat, top: nat, e: Entry, n: Name)
    requires Threaded(es, top) && e in es && e.before < e.after <= to && e.after < top
    ensures PathNames(es, e.before, to, top, n) <==> Names(e.delta, n) || PathNames(es, e.after, to, top, n)
  {
    hide Threaded, Line, Names;
    EdgeStartsOnLine(es, top, e);
    forall f | f in es ensures OnPath(es, e.before, to, top, f) <==> f == e || OnPath(es, e.after, to, top, f) {
      if f.before in Line(es, e.after, top) {
        NothingBetween(es, top, e, f.before);
      }
      if f.before == e.before {
        UniqueRedo(es, top, e);
        UniqueRedo(es, top, f);
      }
    }
  }

  lemma {:induction false} CollectedNames(es: seq<Entry>, from: nat, to: nat, top: nat, n: Name)
    requires Threaded(es, top) && Forward(es) && from < top && Collect(es, from, to).Some?
    ensures Names(Collect(es, from, to).value, n) <==> PathNames(es, from, to, top, n)
    decreases if to < from then from - to else to - from
  {
    hide Threaded, Names, PathNames, Merge;
    if from == to {
      MergedNames(EMPTY_DELTA, EMPTY_DELTA, n);
      NoPath(es, from, top, n);
    } else if to < from {
      var e := UndoEntry(es, from).value;
      EdgeBounds(es, top, e);
      CollectedNames(es, e.before, to, top, n);
      MergedNames(e.delta, Collect(es, e.before, to).value, n);
      PathBack(es, to, top, e, n);
    } else {
      var e := RedoEntry(es, from).value;
      EdgeBounds(es, top, e);
      CollectedNames(es, e.after, to, top, n);
      MergedNames(e.delta, Collect(es, e.after, to).value, n);
      PathForward(es, to, top, e, n);
    }
  }

  lemma NoPath(es: seq<Entry>, t: nat, top: nat, n: Name)
    requires Threaded(es, top) && t < top
    ensures !PathNames(es, t, t, top, n)
  {
    hide Threaded;
  }

  /** The delta an accepted jump returns names an object, a volume, an instance or a plate if and
      only if an edge on the line between the cursor and the target names it; the objects of the
      restored model are listed in order. */
  lemma JumpDeltaIsExact(s: Timeline, target: nat, live: Option<Roots>, bytes: Timeline -> nat)
    requires Inv(s) && Restore(s, target, live, bytes).Some?
    ensures Threaded(s.entries, s.nextTimestamp) && s.current < s.nextTimestamp
    ensures var r := Restore(s, target, live, bytes).value.1;
            && (forall n: Name :: Names(r.delta, n) <==> PathNames(s.entries, s.current, target, s.nextTimestamp, n))
            && |r.objectOrder| == |r.snapshot.model.objects|
            && forall i | 0 <= i < |r.objectOrder| :: r.objectOrder[i] == r.snapshot.model.objects[i].id
  {
    hide Threaded, MarksInv, Names, PathNames, Enforce, Capturable;
    EdgesPointForward(s);
    var r := Restore(s, target, live, bytes).value.1;
    assert r.delta == Collect(s.entries, s.current, target).value;
    hide Collect;
    forall n: Name ensures Names(r.delta, n) <==> PathNames(s.entries, s.current, target, s.nextTimestamp, n) {
      CollectedNames(s.entries, s.current, target, s.nextTimestamp, n);
    }
  }

  lemma OneEdge(es: seq<Entry>, top: nat, e: Entry)
    requires Threaded(es, top) && Forward(es) && e in es
    ensures Collect(es, e.after, e.before) == Some(e.delta) == Collect(es, e.before, e.after)
  {
    hide Threaded;
    EdgeBounds(es, top, e);
    UniqueUndo(es, top, e);
    UniqueRedo(es, top, e);
    MergeIsMonoid(e.delta, EMPTY_DELTA, EMPTY_DELTA);
    assert Collect(es, e.before, e.before) == Some(EMPTY_DELTA) && Collect(es, e.after, e.after) == Some(EMPTY_DELTA);
  }

  /** One step returns exactly what its edge recorded. */
  lemma StepDelta(s: Timeline, live: Roots, bytes: Timeline -> nat)
    requires Inv(s)
    ensures Undo(s, live, bytes).Some? ==>
              UndoEntry(s.entries, s.current).Some? && Undo(s, live, bytes).value.1.delta == UndoEntry(s.entries, s.current).value.delta
    ensures Redo(s, bytes).Some? ==>
              RedoEntry(s.entries, s.current).Some? && Redo(s, bytes).value.1.delta == RedoEntry(s.entries, s.current).value.delta
  {
    hide Threaded, MarksInv, Capturable, Enforce;
    EdgesPointForward(s);
    if UndoEntry(s.entries, s.current).Some? {
      OneEdge(s.entries, s.nextTimestamp, UndoEntry(s.entries, s.current).value);
    }
    if RedoEntry(s.entries, s.current).Some? {
      OneEdge(s.entries, s.nextTimestamp, RedoEntry(s.entries, s.current).value);
    }
    hide Collect;
  }

  // ---------- merging does not change what jumps name ----------

  /** `ms` is `es` with the neighbouring edges `a` and `b` merged into `c`, delta included. */
  ghost predicate MergesDeltas(es: seq<Entry>, ms: seq<Entry>, a: Entry, b: Entry, c: Entry) {
    Merges(es, ms, a, b, c) && c.delta == Merge(a.delta, b.delta)
  }

  lemma MergeCommutes(a: SceneDelta, b: SceneDelta)
    ensures Merge(a, b) == Merge(b, a)
  {
  }

  lemma {:induction false} MergeKeepsWalkBack(es: seq<Entry>, ms: seq<Entry>, a: Entry, b: Entry, c: Entry, from: nat, to: nat, top: nat)
    requires Threaded(es, top) && Threaded(ms, top) && Forward(es) && Forward(ms) && MergesDeltas(es, ms, a, b, c)
    requires from != a.after && to != a.after && to <= from
    ensures Collect(ms, from, to) == Collect(es, from, to)
    decreases from
  {
    hide Threaded, Forward, Merge;
    EdgeBounds(es, top, a);
    EdgeBounds(es, top, b);
    if to < from {
      match UndoEntry(es, from) {
        case None => assert UndoEntry(ms, from).None?;
        case Some(e) =>
          EdgeBounds(es, top, e);
          if e == b {
            UniqueUndo(ms, top, c);
            UniqueUndo(es, top, a);
            if to <= a.before {
              MergeKeepsWalkBack(es, ms, a, b, c, a.before, to, top);
              if Collect(es, a.before, to).Some? {
                MergeIsMonoid(b.delta, a.delta, Collect(es, a.before, to).value);
                MergeCommutes(a.delta, b.delta);
              }
            }
          } else {
            if e.before == a.after {
              UniqueRedo(es, top, e);
              UniqueRedo(es, top, b);
            }
            UniqueUndo(ms, top, e);
            if to <= e.before {
              MergeKeepsWalkBack(es, ms, a, b, c, e.before, to, top);
            }
          }
      }
    }
  }

  lemma {:induction false} MergeKeepsWalkForward(es: seq<Entry>, ms: seq<Entry>, a: Entry, b: Entry, c: Entry, from: nat, to: nat, top: nat)
    requires Threaded(es, top) && Threaded(ms, top) && Forward(es) && Forward(ms) && MergesDeltas(es, ms, a, b, c)
    requires from != a.after && to != a.after && from <= to
    ensures Collect(ms, from, to) == Collect(es, from, to)
    decreases if from < to then to - from else 0
  {
    hide Threaded, Forward, Merge;
    EdgeBounds(es, top, a);
    EdgeBounds(es, top, b);
    if from < to {
      match RedoEntry(es, from) {
        case None => assert RedoEntry(ms, from).None?;
        case Some(e) =>
          EdgeBounds(es, top, e);
          if e == a {
            UniqueRedo(ms, top, c);
            UniqueRedo(es, top, b);
            if b.after <= to {
              MergeKeepsWalkForward(es, ms, a, b, c, b.after, to, top);
              if Collect(es, b.after, to).Some? {
                MergeIsMonoid(a.delta, b.delta, Collect(es, b.after, to).value);
              }
            }
          } else {
            if e.after == a.after {
              UniqueUndo(es, top, e);
              UniqueUndo(es, top, a);
            }
            UniqueRedo(ms, top, e);
            if e.after <= to {
              MergeKeepsWalkForward(es, ms, a, b, c, e.after, to, top);
            }
          }
      }
    }
  }

  lemma {:induction false} MergeRunsKeepsWalks(pre: seq<Entry>, es: seq<Entry>, n: nat, sid: nat, title: string, from: nat, to: nat, top: nat)
    requires n <= |es| && Threaded(pre + es, top) && Forward(pre + es)
    requires from !in InsideRuns(es, n, sid, title) && to !in InsideRuns(es, n, sid, title)
    ensures var ms := pre + MergeRuns(es, n, sid, title);
            Threaded(ms, top) && Forward(ms) && Collect(ms, from, to) == Collect(pre + es, from, to)
    decreases |es|
  {
    hide Threaded, Forward, Collect, Merges, Merge;
    if n >= 2 {
      if Mergeable(es[0], es[1], sid) {
        var c := Combine(es[0], es[1], title);
        var full, ms := pre + es, pre + ([c] + es[2..]);
        MergePair(pre, es, sid, title, top);
        ThreadsPointForward(ms, top);
        if to <= from {
          MergeKeepsWalkBack(full, ms, es[0], es[1], c, from, to, top);
        } else {
          MergeKeepsWalkForward(full, ms, es[0], es[1], c, from, to, top);
        }
        MergeRunsKeepsWalks(pre, [c] + es[2..], n - 1, sid, title, from, to, top);
      } else {
        ShiftOne(pre, es, MergeRuns(es[1..], n - 1, sid, title));
        MergeRunsKeepsWalks(pre + [es[0]], es[1..], n - 1, sid, title, from, to, top);
      }
    }
  }

  /** After merging, the walk between any two timestamps that are left gathers exactly the delta it
      gathered before, or fails where it failed before. */
  lemma MergingKeepsDeltas(s: Timeline, title: string, from: nat, to: nat)
    requires Inv(s) && s.session.Some? && from !in Inside(s) && to !in Inside(s)
    ensures Forward(s.entries) && Forward(MergeSession(s, title).entries)
    ensures Collect(MergeSession(s, title).entries, from, to) == Collect(s.entries, from, to)
  {
    hide Threaded, MarksInv, MergeRuns, InsideRuns, AppliedCount, Collect;
    var es, n, sid := s.entries, AppliedCount(s.entries, s.current), s.session.value.id;
    EdgesPointForward(s);
    TitleIsFree(es, es, n, sid, title, "");
    assert [] + es == es;
    MergeRunsKeepsWalks([], es, n, sid, title, from, to, s.nextTimestamp);
    assert [] + MergeRuns(es, n, sid, title) == MergeRuns(es, n, sid, title);
  }
}
