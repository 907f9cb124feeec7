/** Operations, navigation and the saved marker: what one call does to the timeline, and what
    that means for the undo and redo lists. `None` is a refused call, which changes nothing. */
module HistorySteps {
  import opened Wrappers
  import opened HistoryThreads
  import opened History

  // ---------- operations ----------

  /** Opens an operation, archiving its predecessor, or joins the open one. A timestamp that is
      archived already keeps its model and takes only the live session roots. */
  function Begin(s: Timeline, title: string, pred: Roots, kind: OperationKind): Option<Timeline> {
    if s.operation.Some? then Some(s.(operation := Some(s.operation.value.(depth := s.operation.value.depth + 1))))
    else
      var prior := if s.current in s.snapshots then Some(s.snapshots[s.current]) else None;
      var archive := if prior.None? then (if Capturable(pred.model) then Some(Snapshot(pred.model, pred.context)) else None)
                     else if SameShape(prior.value.model, pred.model) then Some(prior.value.(context := pred.context))
                     else None;
      if archive.None? then None
      else
        var session := if s.session.Some? then s.session.value.id else 0;
        Some(s.(snapshots := s.snapshots[s.current := archive.value],
                operation := Some(Operation(title, s.current, 1, prior, pred.model.objects, pred.scenePlates, kind, session))))
  }

  /** The position of the first edge leaving `t`, or the number of edges. */
  function FirstLeaving(es: seq<Entry>, t: nat): (i: nat)
    ensures i <= |es| && (i < |es| ==> es[i].before == t)
    ensures forall j | 0 <= j < i :: es[j].before != t
  {
    if es == [] then 0
    else if es[0].before == t then 0
    else 1 + FirstLeaving(es[1..], t)
  }

  function EndsOf(es: seq<Entry>): set<nat> {
    (set e <- es :: e.before) + (set e <- es :: e.after)
  }

  /** Drops every edge from the redo edge on, and then the archives nothing refers to. */
  function TruncateRedo(s: Timeline): Timeline {
    var i := FirstLeaving(s.entries, s.current);
    if i == |s.entries| then s
    else
      var t := s.(entries := s.entries[..i]);
      Erase(t, t.snapshots.Keys - ({s.current} + EndsOf(t.entries)))
  }

  function NewEntry(s: Timeline, op: Operation, succ: Roots): Entry {
    Entry(s.nextEntry, op.title, op.before, s.nextTimestamp,
          DeltaBetween(op.objects, op.plates, succ.model.objects, succ.scenePlates), op.kind, op.session)
  }

  /** The committed timeline before the budget is enforced. */
  function Append(s: Timeline, op: Operation, succ: Roots): Timeline {
    s.(entries := s.entries + [NewEntry(s, op, succ)],
       current := s.nextTimestamp,
       nextTimestamp := s.nextTimestamp + 1,
       nextEntry := s.nextEntry + 1,
       session := if s.session.Some? && s.session.value.id == op.session
                  then Some(s.session.value.(effective := true)) else s.session)
  }

  function Commit(s: Timeline, succ: Roots, bytes: Timeline -> nat): Option<Timeline> {
    if s.operation.None? then None
    else if s.operation.value.depth > 1 then
      Some(s.(operation := Some(s.operation.value.(depth := s.operation.value.depth - 1))))
    else Some(Enforce(Append(TruncateRedo(s.(operation := None)), s.operation.value, succ), bytes, false))
  }

  /** Gives up the whole operation, however deeply nested, and returns its predecessor. */
  function Abort(s: Timeline): Option<(Timeline, Snapshot)> {
    if s.operation.None? || s.operation.value.before !in s.snapshots then None
    else
      var op := s.operation.value;
      Some((s.(operation := None,
               snapshots := if op.prior.Some? then s.snapshots[op.before := op.prior.value] else s.snapshots - {op.before}),
            s.snapshots[op.before]))
  }

  // ---------- navigation ----------

  predicate BelowFloor(s: Timeline, t: nat) {
    s.floor.Some? && t < s.floor.value
  }

  function Load(s: Timeline, t: nat, d: SceneDelta): Restored
    requires t in s.snapshots
  {
    var objects := s.snapshots[t].model.objects;
    Restored(t, s.snapshots[t], d, seq(|objects|, i requires 0 <= i < |objects| => objects[i].id))
  }

  function Restore(s: Timeline, target: nat, live: Option<Roots>, bytes: Timeline -> nat): Option<(Timeline, Restored)>
    requires Forward(s.entries)
  {
    if s.operation.Some? || BelowFloor(s, target) || target !in Available(s) then None
    else match Collect(s.entries, s.current, target)
         case None => None
         case Some(d) =>
           var c := if s.current in s.snapshots then Some(s)
                    else if live.None? then None
                    else CaptureTop(s, live.value);
           if c.None? || target !in c.value.snapshots then None
           else Some((Enforce(c.value.(current := target), bytes, false), Load(c.value, target, d)))
  }

  function Undo(s: Timeline, live: Roots, bytes: Timeline -> nat): Option<(Timeline, Restored)>
    requires Forward(s.entries)
  {
    if s.operation.Some? then None
    else match UndoEntry(s.entries, s.current)
         case None => None
         case Some(e) =>
           if BelowFloor(s, e.before) then None
           else match CaptureTop(s, live)
                case None => None
                case Some(c) => Restore(c, e.before, Some(live), bytes)
  }

  function Redo(s: Timeline, bytes: Timeline -> nat): Option<(Timeline, Restored)>
    requires Forward(s.entries)
  {
    if s.operation.Some? then None
    else match RedoEntry(s.entries, s.current)
         case None => None
         case Some(e) => Restore(s, e.after, None, bytes)
  }

  function EntryById(es: seq<Entry>, id: nat): (r: Option<Entry>)
    ensures r.Some? ==> r.value in es && r.value.id == id
    ensures r.None? ==> forall e <- es :: e.id != id
  {
    if es == [] then None
    else if es[0].id == id then Some(es[0])
    else
      assert es == [es[0]] + es[1..];
      EntryById(es[1..], id)
  }

  /** Jumps to the state before or after a listed entry. */
  function RestoreEntry(s: Timeline, id: nat, after: bool, live: Option<Roots>, bytes: Timeline -> nat): Option<(Timeline, Restored)>
    requires Forward(s.entries)
  {
    match EntryById(s.entries, id)
    case None => None
    case Some(e) => Restore(s, if after then e.after else e.before, live, bytes)
  }

  // ---------- repository references ----------

  /** The history context archive `t` is bound to: the caller's, at the cursor, if there is one. */
  function Rebound(s: Timeline, t: nat, rewrite: Bytes -> Option<Bytes>, cursor: Option<Bytes>): Option<Bytes>
    requires t in s.snapshots
  {
    if cursor.Some? && t == s.current then cursor else rewrite(s.snapshots[t].context.historyContext)
  }

  function Bind(x: Snapshot, context: Bytes): Snapshot {
    x.(context := x.context.(historyContext := context))
  }

  /** Rebinds every archive, and the one an open operation would fall back to. A rewrite that
      fails anywhere changes nothing. */
  function RewriteContexts(s: Timeline, rewrite: Bytes -> Option<Bytes>, cursor: Option<Bytes>): Option<Timeline> {
    if exists t <- s.snapshots :: Rebound(s, t, rewrite, cursor).None? then None
    else
      var u := s.(snapshots := map t <- s.snapshots :: Bind(s.snapshots[t], Rebound(s, t, rewrite, cursor).value));
      if s.operation.None? || s.operation.value.prior.None? then Some(u)
      else
        var prior := s.operation.value.prior.value;
        match rewrite(prior.context.historyContext)
        case None => None
        case Some(context) => Some(u.(operation := Some(s.operation.value.(prior := Some(Bind(prior, context))))))
  }

  // ---------- markers ----------

  function SetFloor(s: Timeline, floor: Option<nat>): Option<Timeline> {
    if s.operation.Some? || s.session.Some? then None
    else if floor.Some? && (floor.value > s.current || floor.value !in Available(s)) then None
    else Some(s.(floor := floor))
  }

  function MarkSaved(s: Timeline): Timeline {
    s.(saved := Some(s.current), savedEvicted := false)
  }

  predicate Modified(s: Timeline) {
    s.savedEvicted || s.saved != Some(s.current)
  }

  function SetBudget(s: Timeline, budget: nat, bytes: Timeline -> nat): Timeline {
    Enforce(s.(budget := budget), bytes, false)
  }

  function BeginSession(s: Timeline): Option<Timeline> {
    if s.operation.Some? || s.session.Some? || s.nextSession == 0 then None
    else if s.floor.Some? && s.floor.value != s.current then None
    else Some(s.(session := Some(Session(s.nextSession, s.current, false)),
                 floor := Some(s.current),
                 nextSession := if s.nextSession == LAST_SESSION then 0 else s.nextSession + 1))
  }

  /** Starts over, but goes on counting sessions. */
  function Clear(s: Timeline): Timeline {
    Empty(s.budget, s.nextSession)
  }

  // ---------- operations: what the calls mean ----------

  lemma BeginKeepsInv(s: Timeline, title: string, pred: Roots, kind: OperationKind)
    requires Inv(s) && Begin(s, title, pred, kind).Some?
    ensures Inv(Begin(s, title, pred, kind).value)
  {
    hide Threaded, SameShape, Capturable;
  }

  /** An operation that is opened and given up leaves the timeline exactly as it was. */
  lemma AbortUndoesBegin(s: Timeline, title: string, pred: Roots, kind: OperationKind)
    requires Inv(s) && s.operation.None? && Begin(s, title, pred, kind).Some?
    ensures var b := Begin(s, title, pred, kind).value;
            && Abort(b).Some? && Abort(b).value.0 == s
            && Abort(b).value.1.context == pred.context
            && Abort(b).value.1.model == (if s.current in s.snapshots then s.snapshots[s.current].model else pred.model)
  {
    hide EdgesInv, MarksInv, SameShape, Capturable;
    var b := Begin(s, title, pred, kind).value;
    assert s.current !in s.snapshots ==> b.snapshots - {s.current} == s.snapshots;
    assert s.current in s.snapshots ==> b.snapshots[s.current := s.snapshots[s.current]] == s.snapshots;
  }

  /** An open operation can always be given up. */
  lemma AbortSucceeds(s: Timeline)
    requires Inv(s)
    ensures Abort(s).Some? <==> s.operation.Some?
    ensures Abort(s).Some? ==> Inv(Abort(s).value.0)
  {
    hide Threaded;
  }

  /** Edges ending after `t` play no part in what Undo reaches from `t`. */
  lemma {:induction false} PastOfPrefix(es: seq<Entry>, i: nat, t: nat, top: nat)
    requires Threaded(es, top) && i <= |es| && Threaded(es[..i], top)
    requires forall j | i <= j < |es| :: t < es[j].after
    ensures Past(es[..i], t) == Past(es, t)
    decreases t
  {
    match UndoEntry(es, t) {
      case None => assert UndoEntry(es[..i], t).None?;
      case Some(e) =>
        var j :| 0 <= j < |es| && es[j] == e;
        assert e == es[..i][j];
        UniqueUndo(es[..i], top, e);
        PastOfPrefix(es, i, e.before, top);
    }
  }

  lemma PrefixStaysThreaded(es: seq<Entry>, i: nat, top: nat)
    requires Threaded(es, top) && i <= |es|
    ensures Threaded(es[..i], top)
  {
  }

  lemma TruncateKeepsInv(s: Timeline)
    requires Inv(s) && s.operation.None?
    ensures Inv(TruncateRedo(s)) && OnlyLost(s, TruncateRedo(s))
  {
    hide Threaded, FirstLeaving;
    var u := TruncateRedo(s);
    PrefixStaysThreaded(s.entries, FirstLeaving(s.entries, s.current), s.nextTimestamp);
    assert EdgesInv(u) by { hide MarksInv; }
    assert MarksInv(u) by { hide EdgesInv; }
  }

  lemma CutAtRedoEdge(es: seq<Entry>, t: nat, top: nat)
    requires Threaded(es, top) && Threaded(es[..FirstLeaving(es, t)], top)
    ensures Past(es[..FirstLeaving(es, t)], t) == Past(es, t)
    ensures RedoEntry(es[..FirstLeaving(es, t)], t) == None
  {
    hide Threaded, Past;
    var i := FirstLeaving(es, t);
    ThreadsPointForward(es, top);
    ThreadsPointForward(es[..i], top);
    LaterEdges(es, i, t, top);
    PastOfPrefix(es, i, t, top);
  }

  lemma LaterEdges(es: seq<Entry>, i: nat, t: nat, top: nat)
    requires Threaded(es, top) && i <= |es| && (i < |es| ==> es[i].before == t)
    ensures forall j | i <= j < |es| :: t < es[j].after
  {
    assert i < |es| ==> es[i] in es;
  }

  /** Cutting the redo branch leaves the undo list alone and the redo list empty. */
  lemma TruncateCutsRedo(s: Timeline)
    requires Inv(s) && s.operation.None? && Inv(TruncateRedo(s))
    ensures UndoList(TruncateRedo(s)) == UndoList(s)
    ensures RedoEntry(TruncateRedo(s).entries, s.current) == None
  {
    hide MarksInv, Threaded, FirstLeaving, Past;
    var i := FirstLeaving(s.entries, s.current);
    assert TruncateRedo(s).entries == s.entries[..i];
    PrefixStaysThreaded(s.entries, i, s.nextTimestamp);
    CutAtRedoEdge(s.entries, s.current, s.nextTimestamp);
  }

  lemma LongerStaysThreaded(es: seq<Entry>, e: Entry, top: nat)
    requires Threaded(es, top) && e.before < top == e.after && RedoEntry(es, e.before) == None
    ensures Threaded(es + [e], top + 1)
  {
    assert forall f <- es :: f.before != e.before;
    assert forall i | 0 <= i < |es| :: es[i] in es;
  }

  lemma AppendKeepsInv(s: Timeline, op: Operation, succ: Roots)
    requires Inv(s) && s.operation.None? && s.current in s.snapshots
    requires op.before == s.current && RedoEntry(s.entries, s.current) == None
    ensures Inv(Append(s, op, succ))
  {
    hide DeltaBetween, Threaded;
    var u := Append(s, op, succ);
    LongerStaysThreaded(s.entries, NewEntry(s, op, succ), s.nextTimestamp);
    assert EdgesInv(u) by { hide MarksInv; }
    assert MarksInv(u) by { hide EdgesInv; }
  }

  lemma AppendedEdge(es: seq<Entry>, e: Entry, top: nat)
    requires Threaded(es, top) && Threaded(es + [e], top + 1) && e.after == top
    ensures Past(es + [e], top) == Past(es, e.before) + [e.before]
    ensures Future(es + [e], top, top + 1) == []
  {
    var all := es + [e];
    assert all[..|es|] == es && all[|es|] == e && e in all;
    EdgeBounds(all, top + 1, e);
    UniqueUndo(all, top + 1, e);
    PastOfPrefix(all, |es|, e.before, top + 1);
    if RedoEntry(all, top).Some? {
      EdgeBounds(all, top + 1, RedoEntry(all, top).value);
    }
  }

  lemma AppendExtendsUndo(s: Timeline, op: Operation, succ: Roots)
    requires Inv(s) && op.before == s.current && Inv(Append(s, op, succ))
    ensures UndoList(Append(s, op, succ)) == UndoList(s) + [s.current]
    ensures RedoList(Append(s, op, succ)) == []
  {
    hide MarksInv, DeltaBetween, Threaded, Past, Future;
    AppendedEdge(s.entries, NewEntry(s, op, succ), s.nextTimestamp);
  }

  /** The outer commit discards every redo step, keeps the undo list but for budget losses at
      its old end, and puts the predecessor on it as the step that can never be lost to the
      budget. The new top has no archive yet. */
  lemma CommitExtendsUndo(s: Timeline, succ: Roots, bytes: Timeline -> nat) returns (k: nat)
    requires Inv(s) && s.operation.Some? && s.operation.value.depth == 1
    ensures var u := Commit(s, succ, bytes).value;
            && Inv(u) && u.operation.None?
            && u.current == s.nextTimestamp && u.current !in u.snapshots
            && u.nextTimestamp == s.nextTimestamp + 1 && u.floor == s.floor
            && RedoList(u) == []
            && k <= |UndoList(s)| && UndoList(u) == UndoList(s)[k..] + [s.current]
            && (forall t <- u.snapshots :: t in s.snapshots && u.snapshots[t] == s.snapshots[t])
  {
    hide Threaded, Past, Future, Enforce, DeltaBetween, NewEntry;
    var closed := s.(operation := None);
    var cut := TruncateRedo(closed);
    var grown := Append(cut, s.operation.value, succ);
    TruncateKeepsInv(closed);
    TruncateCutsRedo(closed);
    AppendKeepsInv(cut, s.operation.value, succ);
    AppendExtendsUndo(cut, s.operation.value, succ);
    var m;
    k, m := EnforceTrims(grown, bytes, false);
  }
}
