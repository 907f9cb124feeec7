/** What the observer's logs can be relied on for, over every trace of messages on any number of
    ports. */
module ProtocolTraces {
  import opened Wrappers
  import opened ProtocolObserver

  // ---------- which request a response answers ----------

  /** Event `j` asks for `op` with this id on this port, and no later event concerns them. */
  ghost predicate LatestAt(t: seq<Event>, port: Port, id: int, op: string, j: nat) {
    && j < |t| && t[j] == Posted(port, Request(id, op))
    && forall k | j < k < |t| :: !Asks(t[k], port, id) && !Answers(t[k], port, id)
  }

  lemma {:induction false} OpenOpIsLatest(t: seq<Event>, port: Port, id: int, op: string)
    ensures OpenOp(t, port, id) == Some(op) <==> exists j: nat :: LatestAt(t, port, id, op, j)
  {
    if t != [] {
      if Asks(Last(t), port, id) {
        if Last(t).message.op == op {
          assert LatestAt(t, port, id, op, |t| - 1);
        }
      } else if !Answers(Last(t), port, id) {
        OpenOpIsLatest(Front(t), port, id, op);
        if j: nat :| LatestAt(Front(t), port, id, op, j) {
          assert LatestAt(t, port, id, op, j);
        }
        if j: nat :| LatestAt(t, port, id, op, j) {
          assert LatestAt(Front(t), port, id, op, j);
        }
      }
    }
  }

  // ---------- ports do not interfere ----------

  /** The events on one port. */
  function Only(t: seq<Event>, port: Port): seq<Event> {
    if t == [] then [] else Only(Front(t), port) + (if Last(t).port == port then [Last(t)] else [])
  }

  /** What is open on a port depends on nothing but the events of that port. */
  lemma {:induction false} OtherPortsDoNotInterfere(t: seq<Event>, port: Port, id: int)
    ensures OpenOp(t, port, id) == OpenOp(Only(t, port), port, id)
  {
    if t != [] {
      OtherPortsDoNotInterfere(Front(t), port, id);
      if Last(t).port == port {
        Extends(Only(Front(t), port), Last(t));
      } else {
        assert Only(t, port) == Only(Front(t), port);
      }
    }
  }

  // ---------- append-only logs ----------

  /** What the events after `t` add to the slice log. */
  function Added(t: seq<Event>, more: seq<Event>): seq<Receipt>
    decreases |more|
  {
    if more == [] then [] else Added(t, Front(more)) + SliceEntry(t + more)
  }

  lemma {:induction false} LogsGrow(t: seq<Event>, more: seq<Event>)
    ensures SliceLog(t + more) == SliceLog(t) + Added(t, more)
    ensures SliceLog(t) <= SliceLog(t + more) && ExportLog(t) <= ExportLog(t + more) && ProjectLog(t) <= ProjectLog(t + more)
    decreases |more|
  {
    hide SliceEntry, ExportEntry, ProjectEntry, SliceLog, ExportLog, ProjectLog;
    if more == [] {
      assert t + more == t;
    } else {
      LogsGrow(t, Front(more));
      assert t + more == (t + Front(more)) + [Last(more)];
      Extends(t + Front(more), Last(more));
    }
  }

  /** The check made after slicing: exactly one more entry, which is taken as the result. */
  method SliceToPreview(previous: nat, slices: seq<Receipt>) returns (receipt: Option<Receipt>)
    ensures receipt.Some? <==> |slices| == previous + 1
    ensures receipt.Some? ==> receipt.value == slices[|slices| - 1]
  {
    if |slices| != previous + 1 {
      return None;
    }
    return Some(slices[|slices| - 1]);
  }

  /** What event `k` after `t` adds to the slice log. */
  function EntryAt(t: seq<Event>, more: seq<Event>, k: nat): seq<Receipt>
    requires k < |more|
  {
    SliceEntry(t + more[..k + 1])
  }

  lemma SameEntries(t: seq<Event>, more: seq<Event>)
    requires more != []
    ensures forall k: nat | k < |more| - 1 :: EntryAt(t, Front(more), k) == EntryAt(t, more, k)
    ensures EntryAt(t, more, |more| - 1) == SliceEntry(t + more)
  {
    assert more[..|more|] == more;
    forall k: nat | k < |more| - 1 ensures EntryAt(t, Front(more), k) == EntryAt(t, more, k) {
      assert Front(more)[..k + 1] == more[..k + 1];
    }
  }

  lemma {:induction false} NoneAdded(t: seq<Event>, more: seq<Event>)
    ensures Added(t, more) == [] <==> forall k: nat | k < |more| :: EntryAt(t, more, k) == []
    decreases |more|
  {
    if more != [] {
      SameEntries(t, more);
      NoneAdded(t, Front(more));
    }
  }

  /** One entry was added exactly if one of the later events added it and no other added any. */
  lemma {:induction false} OneAdded(t: seq<Event>, more: seq<Event>)
    requires |Added(t, more)| == 1
    ensures exists i: nat | i < |more| ::
              && EntryAt(t, more, i) == Added(t, more)
              && forall k: nat | k < |more| && k != i :: EntryAt(t, more, k) == []
    decreases |more|
  {
    hide SliceEntry, EntryAt;
    var n := |more| - 1;
    SameEntries(t, more);
    if EntryAt(t, more, n) == [] {
      OneAdded(t, Front(more));
      var i: nat :| i < n && EntryAt(t, Front(more), i) == Added(t, Front(more))
               && forall k: nat | k < n && k != i :: EntryAt(t, Front(more), k) == [];
      assert EntryAt(t, more, i) == Added(t, more);
    } else {
      NoneAdded(t, Front(more));
      assert Added(t, more) == Added(t, Front(more)) + EntryAt(t, more, n);
      assert |EntryAt(t, more, n)| >= 1 && Added(t, Front(more)) == [];
      assert EntryAt(t, more, n) == Added(t, more);
    }
  }

  /** If one of the later events adds to the slice log and no other does, the log grows by what that
      event adds and nothing else. */
  lemma {:induction false} OnlyThatIsAdded(t: seq<Event>, more: seq<Event>, i: nat)
    requires i < |more| && forall k: nat | k < |more| && k != i :: EntryAt(t, more, k) == []
    ensures Added(t, more) == EntryAt(t, more, i)
    decreases |more|
  {
    hide SliceEntry, EntryAt;
    var n := |more| - 1;
    SameEntries(t, more);
    if i == n {
      NoneAdded(t, Front(more));
    } else {
      OnlyThatIsAdded(t, Front(more), i);
    }
  }

  /** Event `k` after `t` is an accepted response with this receipt to an open slice request of its
      port. */
  ghost predicate MatchedSlice(t: seq<Event>, more: seq<Event>, k: nat, receipt: Receipt) {
    && k < |more| && more[k].Delivered? && more[k].reply.Response?
    && OpenOp(t + more[..k], more[k].port, more[k].reply.id) == Some(SLICE)
    && more[k].reply.result.Accepted? && more[k].reply.result.receipt == Some(receipt)
  }

  lemma EntryIsMatch(t: seq<Event>, more: seq<Event>, k: nat, receipt: Receipt)
    requires k < |more|
    ensures EntryAt(t, more, k) == [receipt] <==> MatchedSlice(t, more, k, receipt)
  {
    hide OpenOp;
    var u := t + more[..k + 1];
    assert Last(u) == more[k] && Front(u) == t + more[..k];
  }

  lemma NoEntryIsNoMatch(t: seq<Event>, more: seq<Event>, k: nat)
    requires k < |more|
    ensures EntryAt(t, more, k) == [] <==> forall r: Receipt :: !MatchedSlice(t, more, k, r)
  {
    hide OpenOp;
    var entry := EntryAt(t, more, k);
    if entry != [] {
      EntryIsMatch(t, more, k, entry[0]);
    }
    forall r: Receipt | entry == [] ensures !MatchedSlice(t, more, k, r) {
      EntryIsMatch(t, more, k, r);
    }
  }

  /** Event `i` is a matched slice reply with this receipt, and no other event is one. */
  ghost predicate OnlyMatch(t: seq<Event>, more: seq<Event>, i: nat, receipt: Receipt) {
    && MatchedSlice(t, more, i, receipt)
    && forall k: nat, r: Receipt :: MatchedSlice(t, more, k, r) ==> k == i
  }

  lemma OneAddedIsOneMatch(t: seq<Event>, more: seq<Event>, receipt: Receipt)
    ensures Added(t, more) == [receipt] <==> exists i: nat :: OnlyMatch(t, more, i, receipt)
  {
    hide EntryAt, MatchedSlice;
    if Added(t, more) == [receipt] {
      OneAdded(t, more);
      var i: nat :| i < |more| && EntryAt(t, more, i) == Added(t, more)
                    && forall k: nat | k < |more| && k != i :: EntryAt(t, more, k) == [];
      EntryIsMatch(t, more, i, receipt);
      forall k: nat, r: Receipt | MatchedSlice(t, more, k, r) ensures k == i {
        assert k < |more| by { MatchIsInside(t, more, k, r); }
        NoEntryIsNoMatch(t, more, k);
      }
      assert OnlyMatch(t, more, i, receipt);
    }
    if i: nat :| OnlyMatch(t, more, i, receipt) {
      MatchIsInside(t, more, i, receipt);
      EntryIsMatch(t, more, i, receipt);
      forall k: nat | k < |more| && k != i ensures EntryAt(t, more, k) == [] {
        NoEntryIsNoMatch(t, more, k);
      }
      OnlyThatIsAdded(t, more, i);
    }
  }

  lemma MatchIsInside(t: seq<Event>, more: seq<Event>, k: nat, receipt: Receipt)
    requires MatchedSlice(t, more, k, receipt)
    ensures k < |more|
  {
  }

  /** The check made after slicing passes with this receipt exactly if one successful slice reply
      with a receipt was matched between the two readings, and it carried that receipt. */
  lemma PreviewIsTheOnlyNewSlice(t: seq<Event>, more: seq<Event>, receipt: Receipt)
    ensures (var before, after := SliceLog(t), SliceLog(t + more);
             |after| == |before| + 1 && after[|after| - 1] == receipt)
            <==> exists i: nat :: OnlyMatch(t, more, i, receipt)
  {
    hide OnlyMatch;
    LogsGrow(t, more);
    OneAddedIsOneMatch(t, more, receipt);
    var added := Added(t, more);
    assert |added| == 1 ==> added == [added[0]];
  }

  // ---------- the logs, entry by entry ----------

  /** Event `k` is an accepted response to an open request of its port for `op`. */
  ghost predicate Matched(t: seq<Event>, k: nat, op: string) {
    && k < |t| && t[k].Delivered? && t[k].reply.Response? && t[k].reply.result.Accepted?
    && OpenOp(t[..k], t[k].port, t[k].reply.id) == Some(op)
  }

  lemma EarlierMatches(t: seq<Event>, k: nat, op: string)
    requires t != []
    ensures k < |t| - 1 ==> (Matched(Front(t), k, op) <==> Matched(t, k, op))
    ensures Matched(t, |t| - 1, op) <==> AnsweredOp(t) == Some(op) && Last(t).reply.result.Accepted?
  {
    hide OpenOp;
    if k < |t| - 1 {
      assert Front(t)[..k] == t[..k];
    }
    assert t[..|t| - 1] == Front(t);
  }

  ghost predicate Ascending(at: seq<nat>) {
    forall i, j | 0 <= i < j < |at| :: at[i] < at[j]
  }

  /** Event `k` is a matched slice reply with this receipt. */
  ghost predicate SliceAt(t: seq<Event>, k: nat, entry: Receipt) {
    Matched(t, k, "slicePlate") && t[k].reply.result.receipt == Some(entry)
  }

  lemma SliceStep(t: seq<Event>, k: nat, entry: Receipt)
    requires t != []
    ensures SliceAt(t, k, entry) ==> k < |t|
    ensures k < |t| - 1 ==> (SliceAt(Front(t), k, entry) <==> SliceAt(t, k, entry))
    ensures SliceAt(t, |t| - 1, entry) <==> SliceEntry(t) == [entry]
  {
    hide AnsweredOp, OpenOp;
    EarlierMatches(t, k, "slicePlate");
  }

  /** The slice log lists, in order, the receipts of exactly the matched slice replies that carry one. */
  lemma {:induction false} SliceLogIsMatches(t: seq<Event>) returns (at: seq<nat>)
    ensures Ascending(at) && (forall k <- at :: k < |t|)
    ensures forall k: nat :: k in at <==> exists entry :: SliceAt(t, k, entry)
    ensures |SliceLog(t)| == |at| && forall j | 0 <= j < |at| :: SliceAt(t, at[j], SliceLog(t)[j])
  {
    at := [];
    if t == [] {
      assert forall k: nat, entry: Receipt :: !SliceAt(t, k, entry);
    } else {
      assert SliceLog(t) == SliceLog(Front(t)) + SliceEntry(t);
      assert |SliceEntry(t)| <= 1 by { AtMostOneEntry(t); }
      hide SliceAt, SliceEntry, SliceLog;
      var n := |t| - 1;
      assert |Front(t)| == n;
      at := SliceLogIsMatches(Front(t));
      forall k: nat, entry: Receipt
        ensures SliceAt(t, k, entry) ==> k < |t|
        ensures k < n ==> (SliceAt(Front(t), k, entry) <==> SliceAt(t, k, entry))
      {
        SliceStep(t, k, entry);
      }
      forall entry: Receipt ensures SliceAt(t, n, entry) <==> SliceEntry(t) == [entry] {
        SliceStep(t, n, entry);
      }
      assert forall j | 0 <= j < |at| :: at[j] in at && at[j] < n;
      if SliceEntry(t) != [] {
        assert SliceEntry(t) == [SliceEntry(t)[0]];
        assert SliceAt(t, n, SliceEntry(t)[0]);
        at := at + [n];
      }
    }
  }

  /** Event `k` is a matched export reply with this file name and this number of bytes. */
  ghost predicate ExportAt(t: seq<Event>, k: nat, entry: GcodeExport) {
    Matched(t, k, "exportGcodePlate") && t[k].reply.result.fileName == entry.fileName && t[k].reply.result.byteLength == Some(entry.byteLength)
  }

  lemma ExportStep(t: seq<Event>, k: nat, entry: GcodeExport)
    requires t != []
    ensures ExportAt(t, k, entry) ==> k < |t|
    ensures k < |t| - 1 ==> (ExportAt(Front(t), k, entry) <==> ExportAt(t, k, entry))
    ensures ExportAt(t, |t| - 1, entry) <==> ExportEntry(t) == [entry]
  {
    hide AnsweredOp, OpenOp;
    EarlierMatches(t, k, "exportGcodePlate");
  }

  /** The export log lists, in order, names and sizes of exactly the matched export replies with bytes. */
  lemma {:induction false} ExportLogIsMatches(t: seq<Event>) returns (at: seq<nat>)
    ensures Ascending(at) && (forall k <- at :: k < |t|)
    ensures forall k: nat :: k in at <==> exists entry :: ExportAt(t, k, entry)
    ensures |ExportLog(t)| == |at| && forall j | 0 <= j < |at| :: ExportAt(t, at[j], ExportLog(t)[j])
  {
    at := [];
    if t == [] {
      assert forall k: nat, entry: GcodeExport :: !ExportAt(t, k, entry);
    } else {
      assert ExportLog(t) == ExportLog(Front(t)) + ExportEntry(t);
      assert |ExportEntry(t)| <= 1 by { AtMostOneEntry(t); }
      hide ExportAt, ExportEntry, ExportLog;
      var n := |t| - 1;
      assert |Front(t)| == n;
      at := ExportLogIsMatches(Front(t));
      forall k: nat, entry: GcodeExport
        ensures ExportAt(t, k, entry) ==> k < |t|
        ensures k < n ==> (ExportAt(Front(t), k, entry) <==> ExportAt(t, k, entry))
      {
        ExportStep(t, k, entry);
      }
      forall entry: GcodeExport ensures ExportAt(t, n, entry) <==> ExportEntry(t) == [entry] {
        ExportStep(t, n, entry);
      }
      assert forall j | 0 <= j < |at| :: at[j] in at && at[j] < n;
      if ExportEntry(t) != [] {
        assert ExportEntry(t) == [ExportEntry(t)[0]];
        assert ExportAt(t, n, ExportEntry(t)[0]);
        at := at + [n];
      }
    }
  }

  /** Event `k` is a matched project reply with this path and this number of bytes. */
  ghost predicate ProjectAt(t: seq<Event>, k: nat, entry: ProjectExport) {
    Matched(t, k, "exportProject") && t[k].reply.result.path == entry.path && t[k].reply.result.byteLength == Some(entry.byteLength)
  }

  lemma ProjectStep(t: seq<Event>, k: nat, entry: ProjectExport)
    requires t != []
    ensures ProjectAt(t, k, entry) ==> k < |t|
    ensures k < |t| - 1 ==> (ProjectAt(Front(t), k, entry) <==> ProjectAt(t, k, entry))
    ensures ProjectAt(t, |t| - 1, entry) <==> ProjectEntry(t) == [entry]
  {
    hide AnsweredOp, OpenOp;
    EarlierMatches(t, k, "exportProject");
  }

  /** The project log lists, in order, paths and sizes of exactly the matched project replies with bytes. */
  lemma {:induction false} ProjectLogIsMatches(t: seq<Event>) returns (at: seq<nat>)
    ensures Ascending(at) && (forall k <- at :: k < |t|)
    ensures forall k: nat :: k in at <==> exists entry :: ProjectAt(t, k, entry)
    ensures |ProjectLog(t)| == |at| && forall j | 0 <= j < |at| :: ProjectAt(t, at[j], ProjectLog(t)[j])
  {
    at := [];
    if t == [] {
      assert forall k: nat, entry: ProjectExport :: !ProjectAt(t, k, entry);
    } else {
      assert ProjectLog(t) == ProjectLog(Front(t)) + ProjectEntry(t);
      assert |ProjectEntry(t)| <= 1 by { AtMostOneEntry(t); }
      hide ProjectAt, ProjectEntry, ProjectLog;
      var n := |t| - 1;
      assert |Front(t)| == n;
      at := ProjectLogIsMatches(Front(t));
      forall k: nat, entry: ProjectExport
        ensures ProjectAt(t, k, entry) ==> k < |t|
        ensures k < n ==> (ProjectAt(Front(t), k, entry) <==> ProjectAt(t, k, entry))
      {
        ProjectStep(t, k, entry);
      }
      forall entry: ProjectExport ensures ProjectAt(t, n, entry) <==> ProjectEntry(t) == [entry] {
        ProjectStep(t, n, entry);
      }
      assert forall j | 0 <= j < |at| :: at[j] in at && at[j] < n;
      if ProjectEntry(t) != [] {
        assert ProjectEntry(t) == [ProjectEntry(t)[0]];
        assert ProjectAt(t, n, ProjectEntry(t)[0]);
        at := at + [n];
      }
    }
  }

  lemma AtMostOneEntry(t: seq<Event>)
    ensures |SliceEntry(t)| <= 1 && |ExportEntry(t)| <= 1 && |ProjectEntry(t)| <= 1
  {
    hide AnsweredOp;
  }

  /** Event `k` delivers a runtime state to a port that had posted a request by then. */
  ghost predicate StateAt(t: seq<Event>, k: nat) {
    && k < |t| && t[k].Delivered? && t[k].reply.RuntimeState?
    && exists i | 0 <= i < k :: t[i].Posted? && t[i].port == t[k].port && t[i].message.Request?
  }

  /** Event `k` delivers such a state and no later one does. */
  ghost predicate LatestState(t: seq<Event>, k: nat) {
    StateAt(t, k) && forall j: nat :: StateAt(t, j) ==> j <= k
  }

  /** The recorded runtime state is the latest one an observed port was told. */
  lemma {:induction false} RuntimeStateIsLatest(t: seq<Event>, threaded: bool)
    ensures Threaded(t) == Some(threaded) <==> exists k: nat :: LatestState(t, k) && t[k].reply.threaded == threaded
  {
    if t != [] {
      RuntimeStateIsLatest(Front(t), threaded);
      var n := |t| - 1;
      forall k: nat ensures k < n ==> (StateAt(Front(t), k) <==> StateAt(t, k)) {
        if k < n && StateAt(t, k) {
          var i :| 0 <= i < k && t[i].Posted? && t[i].port == t[k].port && t[i].message.Request?;
          assert Front(t)[i] == t[i];
        }
        if k < n && StateAt(Front(t), k) {
          var i :| 0 <= i < k && Front(t)[i].Posted? && Front(t)[i].port == Front(t)[k].port && Front(t)[i].message.Request?;
          assert Front(t)[i] == t[i];
        }
      }
      assert StateAt(t, n) <==> Last(t).Delivered? && Last(t).reply.RuntimeState? && Observed(Front(t), Last(t).port) by {
        StateAtEnd(t);
      }
      hide StateAt;
      InsideTrace(t);
      InsideTrace(Front(t));
      if StateAt(t, n) {
        assert LatestState(t, n);
        assert forall k: nat :: LatestState(t, k) ==> k == n;
      } else {
        assert forall k: nat :: StateAt(t, k) <==> StateAt(Front(t), k);
        assert forall k: nat :: LatestState(t, k) <==> LatestState(Front(t), k);
        assert forall k: nat | k < n :: Front(t)[k] == t[k];
      }
    }
  }

  lemma InsideTrace(t: seq<Event>)
    ensures forall k: nat :: StateAt(t, k) ==> k < |t| && t[k].Delivered? && t[k].reply.RuntimeState?
  {
  }

  lemma StateAtEnd(t: seq<Event>)
    requires t != []
    ensures StateAt(t, |t| - 1) <==> Last(t).Delivered? && Last(t).reply.RuntimeState? && Observed(Front(t), Last(t).port)
  {
    var n := |t| - 1;
    if StateAt(t, n) {
      var i :| 0 <= i < n && t[i].Posted? && t[i].port == t[n].port && t[i].message.Request?;
      assert Front(t)[i] == t[i];
    }
    if Observed(Front(t), Last(t).port) {
      var i :| 0 <= i < n && Front(t)[i].Posted? && Front(t)[i].port == Last(t).port && Front(t)[i].message.Request?;
      assert Front(t)[i] == t[i];
    }
  }

  // ---------- repeated and unsolicited replies ----------

  lemma {:induction false} ClosedStaysClosed(t: seq<Event>, more: seq<Event>, port: Port, id: int)
    requires OpenOp(t, port, id) == None
    requires forall e <- more :: !Asks(e, port, id)
    ensures OpenOp(t + more, port, id) == None
    decreases |more|
  {
    if more == [] {
      assert t + more == t;
    } else {
      assert t + more == (t + Front(more)) + [Last(more)];
      Extends(t + Front(more), Last(more));
      ClosedStaysClosed(t, Front(more), port, id);
    }
  }

  lemma ClosedAddsNothing(t: seq<Event>, port: Port, id: int, result: Result)
    requires OpenOp(t, port, id) == None
    ensures var v := t + [Delivered(port, Response(id, result))];
            SliceLog(v) == SliceLog(t) && ExportLog(v) == ExportLog(t) && ProjectLog(v) == ProjectLog(t)
  {
    hide OpenOp, SliceLog, ExportLog, ProjectLog;
    Extends(t, Delivered(port, Response(id, result)));
    assert AnsweredOp(t + [Delivered(port, Response(id, result))]) == None;
  }

  /** A second response, or one nobody asked for, adds nothing to any log until the id is asked
      for again on that port. */
  lemma RepeatedReplyAddsNothing(t: seq<Event>, more: seq<Event>, port: Port, id: int, first: Result, second: Result)
    requires forall e <- more :: !Asks(e, port, id)
    ensures var u := t + [Delivered(port, Response(id, first))] + more;
            var v := u + [Delivered(port, Response(id, second))];
            SliceLog(v) == SliceLog(u) && ExportLog(v) == ExportLog(u) && ProjectLog(v) == ProjectLog(u)
  {
    var answered := t + [Delivered(port, Response(id, first))];
    Extends(t, Delivered(port, Response(id, first)));
    ClosedStaysClosed(answered, more, port, id);
    ClosedAddsNothing(answered + more, port, id, second);
  }

  lemma UnsolicitedReplyAddsNothing(t: seq<Event>, port: Port, id: int, result: Result)
    requires forall e <- t :: !Asks(e, port, id)
    ensures var v := t + [Delivered(port, Response(id, result))];
            SliceLog(v) == SliceLog(t) && ExportLog(v) == ExportLog(t) && ProjectLog(v) == ProjectLog(t)
  {
    hide SliceLog, ExportLog, ProjectLog;
    ClosedStaysClosed([], t, port, id);
    assert [] + t == t;
    ClosedAddsNothing(t, port, id, result);
  }

  // ---------- conservation ----------

  /** Requests posted on the port. */
  function Sent(t: seq<Event>, port: Port): nat {
    if t == [] then 0
    else Sent(Front(t), port) + if Last(t).Posted? && Last(t).message.Request? && Last(t).port == port then 1 else 0
  }

  /** Responses on the port that answered an open request. */
  function Answered(t: seq<Event>, port: Port): nat {
    if t == [] then 0
    else Answered(Front(t), port) + if AnsweredOp(t).Some? && Last(t).port == port then 1 else 0
  }

  predicate ReusesId(t: seq<Event>, port: Port) {
    && t != [] && Last(t).Posted? && Last(t).message.Request? && Last(t).port == port
    && OpenOp(Front(t), port, Last(t).message.id).Some?
  }

  /** Requests on the port that took over the id of a request still open. */
  function Reused(t: seq<Event>, port: Port): nat {
    if t == [] then 0 else Reused(Front(t), port) + (if ReusesId(t, port) then 1 else 0)
  }

  function OpenIds(t: seq<Event>, port: Port): set<int> {
    if t == [] then {}
    else if Last(t).port != port then OpenIds(Front(t), port)
    else match Last(t)
         case Posted(_, Request(id, _)) => OpenIds(Front(t), port) + {id}
         case Delivered(_, Response(id, _)) => OpenIds(Front(t), port) - {id}
         case _ => OpenIds(Front(t), port)
  }

  lemma {:induction false} OpenIdsAreOpen(t: seq<Event>, port: Port)
    ensures forall id :: id in OpenIds(t, port) <==> OpenOp(t, port, id).Some?
  {
    if t != [] {
      OpenIdsAreOpen(Front(t), port);
    }
  }

  /** Every request is answered, still open, or lost to a request that reused its id; so the
      books balance between sent and answered alone exactly if no id was reused while open. */
  lemma {:induction false} RequestsAreConserved(t: seq<Event>, port: Port)
    ensures Sent(t, port) == Answered(t, port) + |OpenIds(t, port)| + Reused(t, port)
  {
    if t != [] {
      RequestsAreConserved(Front(t), port);
      OpenIdsAreOpen(Front(t), port);
      var ids := OpenIds(Front(t), port);
      match Last(t) {
        case Posted(_, Request(id, _)) => assert id in ids ==> ids + {id} == ids;
        case Delivered(_, Response(id, _)) => assert id !in ids ==> ids - {id} == ids;
        case _ =>
      }
    }
  }

  lemma {:induction false} NothingReused(t: seq<Event>, port: Port)
    ensures Reused(t, port) == 0 <==> forall n: nat | n <= |t| :: !ReusesId(t[..n], port)
  {
    if t == [] {
      assert !ReusesId([], port);
    } else {
      NothingReused(Front(t), port);
      assert t[..|t|] == t;
      assert forall n: nat | n <= |t| - 1 :: t[..n] == Front(t)[..n];
    }
  }

  /** Sent requests are the answered and the pending ones if and only if no request took the id of
      one that was still open on its port. */
  lemma BooksBalanceIff(t: seq<Event>, port: Port)
    ensures Sent(t, port) == Answered(t, port) + |OpenIds(t, port)| <==> forall n: nat | n <= |t| :: !ReusesId(t[..n], port)
  {
    RequestsAreConserved(t, port);
    NothingReused(t, port);
  }

  /** The observer's map for a port holds exactly the open requests, so it balances the books. */
  lemma PendingBalances(t: seq<Event>, pending: map<Port, map<int, string>>, port: Port)
    requires Tracks(t, pending) && port in pending
    ensures Sent(t, port) == Answered(t, port) + |pending[port]| + Reused(t, port)
  {
    OpenIdsAreOpen(t, port);
    RequestsAreConserved(t, port);
    forall id ensures id in pending[port] <==> id in OpenIds(t, port) {
      assert Pending(pending, port, id) == OpenOp(t, port, id);
    }
    assert pending[port].Keys == OpenIds(t, port);
    assert |pending[port]| == |pending[port].Keys|;
  }

  // ---------- no log without requests ----------

  /** Requests for the operation, on any port. */
  function Requested(t: seq<Event>, op: string): nat {
    if t == [] then 0
    else Requested(Front(t), op) + if Last(t).Posted? && Last(t).message.Request? && Last(t).message.op == op then 1 else 0
  }

  /** Responses that answered a request for the operation, on any port. */
  function Fulfilled(t: seq<Event>, op: string): nat {
    if t == [] then 0 else Fulfilled(Front(t), op) + if AnsweredOp(t) == Some(op) then 1 else 0
  }

  /** The open requests for the operation, by port and id. */
  function OpenFor(t: seq<Event>, op: string): set<(Port, int)> {
    if t == [] then {}
    else match Last(t)
         case Posted(p, Request(id, o)) => if o == op then OpenFor(Front(t), op) + {(p, id)} else OpenFor(Front(t), op) - {(p, id)}
         case Delivered(p, Response(id, _)) => OpenFor(Front(t), op) - {(p, id)}
         case _ => OpenFor(Front(t), op)
  }

  lemma {:induction false} OpenForIsOpen(t: seq<Event>, op: string)
    ensures forall p: Port, id: int :: (p, id) in OpenFor(t, op) <==> OpenOp(t, p, id) == Some(op)
  {
    if t != [] {
      OpenForIsOpen(Front(t), op);
    }
  }

  lemma {:induction false} FulfilledOrOpen(t: seq<Event>, op: string)
    ensures Fulfilled(t, op) + |OpenFor(t, op)| <= Requested(t, op)
  {
    if t != [] {
      FulfilledOrOpen(Front(t), op);
      OpenForIsOpen(Front(t), op);
    }
  }

  lemma {:induction false} LogsAreFulfilled(t: seq<Event>)
    ensures |SliceLog(t)| <= Fulfilled(t, SLICE)
    ensures |ExportLog(t)| <= Fulfilled(t, EXPORT)
    ensures |ProjectLog(t)| <= Fulfilled(t, PROJECT)
  {
    if t != [] {
      LogsAreFulfilled(Front(t));
    }
  }

  /** However replies are repeated, reordered or spread over ports, no log has more entries than
      requests for its operation were posted, less those still open. */
  lemma LogsNeedRequests(t: seq<Event>)
    ensures |SliceLog(t)| + |OpenFor(t, SLICE)| <= Requested(t, SLICE)
    ensures |ExportLog(t)| + |OpenFor(t, EXPORT)| <= Requested(t, EXPORT)
    ensures |ProjectLog(t)| + |OpenFor(t, PROJECT)| <= Requested(t, PROJECT)
  {
    LogsAreFulfilled(t);
    FulfilledOrOpen(t, SLICE);
    FulfilledOrOpen(t, EXPORT);
    FulfilledOrOpen(t, PROJECT);
  }
}
