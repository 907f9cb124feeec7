/** The observer that the temporary-file journeys put under `postMessage`: it pairs replies with
    the requests of the same port and keeps three logs. It is proved against a specification
    that has no state, only the trace of messages. */
module ProtocolObserver {
  import opened Wrappers

  type Port = nat

  datatype Receipt = Receipt(plateId: string, resultGeneration: string)

  /** A result that is not `ok`, or one that is; `byteLength` is absent if the bytes are. */
  datatype Result =
    | Refused
    | Accepted(receipt: Option<Receipt>, fileName: Option<string>, path: Option<string>, byteLength: Option<nat>)

  datatype Message = Request(id: int, op: string) | OtherMessage

  datatype Reply = RuntimeState(threaded: bool) | Response(id: int, result: Result) | OtherReply

  datatype Event = Posted(port: Port, message: Message) | Delivered(port: Port, reply: Reply)

  datatype GcodeExport = GcodeExport(fileName: Option<string>, byteLength: nat)

  datatype ProjectExport = ProjectExport(path: Option<string>, byteLength: nat)

  const SLICE := "slicePlate"
  const EXPORT := "exportGcodePlate"
  const PROJECT := "exportProject"

  // ---------- the specification, on traces ----------

  function Last(t: seq<Event>): Event
    requires t != []
  {
    t[|t| - 1]
  }

  function Front(t: seq<Event>): seq<Event>
    requires t != []
  {
    t[..|t| - 1]
  }

  predicate Asks(e: Event, port: Port, id: int) {
    e.Posted? && e.message.Request? && e.port == port && e.message.id == id
  }

  predicate Answers(e: Event, port: Port, id: int) {
    e.Delivered? && e.reply.Response? && e.port == port && e.reply.id == id
  }

  /** The operation of the latest request with this id on this port that no response followed. */
  function OpenOp(t: seq<Event>, port: Port, id: int): Option<string> {
    if t == [] then None
    else if Asks(Last(t), port, id) then Some(Last(t).message.op)
    else if Answers(Last(t), port, id) then None
    else OpenOp(Front(t), port, id)
  }

  /** The operation the last event answers, if it is a response to an open request. */
  function AnsweredOp(t: seq<Event>): Option<string> {
    if t != [] && Last(t).Delivered? && Last(t).reply.Response?
    then OpenOp(Front(t), Last(t).port, Last(t).reply.id)
    else None
  }

  function SliceEntry(t: seq<Event>): seq<Receipt> {
    if AnsweredOp(t) == Some(SLICE) && Last(t).reply.result.Accepted? && Last(t).reply.result.receipt.Some?
    then [Last(t).reply.result.receipt.value] else []
  }

  function ExportEntry(t: seq<Event>): seq<GcodeExport> {
    if AnsweredOp(t) == Some(EXPORT) && Last(t).reply.result.Accepted? && Last(t).reply.result.byteLength.Some?
    then [GcodeExport(Last(t).reply.result.fileName, Last(t).reply.result.byteLength.value)] else []
  }

  function ProjectEntry(t: seq<Event>): seq<ProjectExport> {
    if AnsweredOp(t) == Some(PROJECT) && Last(t).reply.result.Accepted? && Last(t).reply.result.byteLength.Some?
    then [ProjectExport(Last(t).reply.result.path, Last(t).reply.result.byteLength.value)] else []
  }

  function SliceLog(t: seq<Event>): seq<Receipt> {
    if t == [] then [] else SliceLog(Front(t)) + SliceEntry(t)
  }

  function ExportLog(t: seq<Event>): seq<GcodeExport> {
    if t == [] then [] else ExportLog(Front(t)) + ExportEntry(t)
  }

  function ProjectLog(t: seq<Event>): seq<ProjectExport> {
    if t == [] then [] else ProjectLog(Front(t)) + ProjectEntry(t)
  }

  /** The port has posted a request. */
  predicate Observed(t: seq<Event>, port: Port) {
    exists i | 0 <= i < |t| :: t[i].Posted? && t[i].port == port && t[i].message.Request?
  }

  /** The latest runtime state delivered to a port that had posted a request by then. */
  function Threaded(t: seq<Event>): Option<bool> {
    if t == [] then None
    else if Last(t).Delivered? && Last(t).reply.RuntimeState? && Observed(Front(t), Last(t).port)
    then Some(Last(t).reply.threaded)
    else Threaded(Front(t))
  }

  // ---------- the observer ----------

  class Observer {
    var threaded: Option<bool>
    var slices: seq<Receipt>
    var exports: seq<GcodeExport>
    var projectExports: seq<ProjectExport>
    /** One map of open requests per observed port. */
    var pendingByPort: map<Port, map<int, string>>
    /** The listeners attached so far. */
    var listeners: multiset<Port>
    /** Everything posted and delivered so far. */
    ghost var trace: seq<Event>

    /** The observer's state is what the trace says. */
    ghost predicate Valid()
      reads this
    {
      && threaded == Threaded(trace)
      && slices == SliceLog(trace)
      && exports == ExportLog(trace)
      && projectExports == ProjectLog(trace)
      && Tracks(trace, pendingByPort)
      && forall p: Port :: listeners[p] == if p in pendingByPort then 1 else 0
    }

    constructor ()
      ensures Valid() && trace == []
    {
      threaded, slices, exports, projectExports := None, [], [], [];
      pendingByPort, listeners, trace := map[], multiset{}, [];
    }

    method PostMessage(port: Port, message: Message)
      requires Valid()
      modifies this
      ensures Valid() && trace == old(trace) + [Posted(port, message)]
      ensures slices == old(slices) && exports == old(exports) && projectExports == old(projectExports)
    {
      hide Tracks, OpenOp, Observed, SliceLog, ExportLog, ProjectLog, SliceEntry, ExportEntry, ProjectEntry, Threaded, Front, Last;
      var e := Posted(port, message);
      Extends(trace, e);
      PostingLogsNothing(trace, port, message);
      if message.Request? {
        RequestOpens(trace, pendingByPort, port, message.id, message.op);
        ghost var known := if port in pendingByPort then pendingByPort[port] else map[];
        ghost var after := pendingByPort[port := known[message.id := message.op]];
        if port !in pendingByPort {
          pendingByPort := pendingByPort[port := map[]];
          listeners := listeners + multiset{port};
        }
        pendingByPort := pendingByPort[port := pendingByPort[port][message.id := message.op]];
        assert pendingByPort == after;
      } else {
        OthersKeep(trace, pendingByPort, e);
      }
      trace := trace + [e];
    }

    /** A message arrives at a port; the listener, if there is one, looks at it. */
    method Deliver(port: Port, reply: Reply)
      requires Valid()
      modifies this
      ensures Valid() && trace == old(trace) + [Delivered(port, reply)]
    {
      hide Tracks, OpenOp, Observed, SliceLog, ExportLog, ProjectLog, Threaded, Front, AnsweredOp;
      var e := Delivered(port, reply);
      Extends(trace, e);
      DeliveryIsLogged(trace, pendingByPort, port, reply);
      if !reply.Response? {
        OthersKeep(trace, pendingByPort, e);
      } else {
        ResponseCloses(trace, pendingByPort, port, reply.id, reply.result);
      }
      if listeners[port] == 1 {
        if reply.RuntimeState? {
          threaded := Some(reply.threaded);
        } else if reply.Response? {
          var requests := pendingByPort[port];
          var operation := if reply.id in requests then Some(requests[reply.id]) else None;
          pendingByPort := pendingByPort[port := requests - {reply.id}];
          if reply.result.Accepted? {
            Record(operation, reply.result);
          }
        }
      }
      trace := trace + [e];
    }

    /** Logs an accepted result. Missing bytes are an exception in the listener: nothing is logged. */
    method Record(operation: Option<string>, result: Result)
      requires result.Accepted?
      modifies this`slices, this`exports, this`projectExports
      ensures slices == old(slices) + if operation == Some(SLICE) && result.receipt.Some? then [result.receipt.value] else []
      ensures exports == old(exports) + if operation == Some(EXPORT) && result.byteLength.Some?
                                        then [GcodeExport(result.fileName, result.byteLength.value)] else []
      ensures projectExports == old(projectExports) + if operation == Some(PROJECT) && result.byteLength.Some?
                                                      then [ProjectExport(result.path, result.byteLength.value)] else []
    {
      if operation == Some(SLICE) && result.receipt.Some? {
        slices := slices + [result.receipt.value];
      }
      if operation == Some(EXPORT) || operation == Some(PROJECT) {
        if result.byteLength.None? {
          return;
        }
        if operation == Some(EXPORT) {
          exports := exports + [GcodeExport(result.fileName, result.byteLength.value)];
        } else {
          projectExports := projectExports + [ProjectExport(result.path, result.byteLength.value)];
        }
      }
    }
  }

  lemma ObservedGrows(t: seq<Event>, e: Event)
    ensures forall p: Port :: Observed(t + [e], p) <==> Observed(t, p) || (e.Posted? && e.port == p && e.message.Request?)
  {
    forall p: Port ensures Observed(t + [e], p) <==> Observed(t, p) || (e.Posted? && e.port == p && e.message.Request?) {
      assert (t + [e])[|t|] == e;
      if Observed(t, p) {
        var i :| 0 <= i < |t| && t[i].Posted? && t[i].port == p && t[i].message.Request?;
        assert (t + [e])[i] == t[i];
      }
    }
  }

  // ---------- how the trace and the maps move together ----------

  function Pending(pending: map<Port, map<int, string>>, port: Port, id: int): Option<string> {
    if port in pending && id in pending[port] then Some(pending[port][id]) else None
  }

  /** There is a map for exactly the observed ports, and it holds exactly the open requests. */
  ghost predicate Tracks(t: seq<Event>, pending: map<Port, map<int, string>>) {
    && (forall p: Port :: p in pending <==> Observed(t, p))
    && (forall p: Port, id: int :: Pending(pending, p, id) == OpenOp(t, p, id))
  }

  lemma Extends(t: seq<Event>, e: Event)
    ensures Front(t + [e]) == t && Last(t + [e]) == e
    ensures SliceLog(t + [e]) == SliceLog(t) + SliceEntry(t + [e])
    ensures ExportLog(t + [e]) == ExportLog(t) + ExportEntry(t + [e])
    ensures ProjectLog(t + [e]) == ProjectLog(t) + ProjectEntry(t + [e])
  {
    assert Front(t + [e]) == t;
  }

  lemma PostingLogsNothing(t: seq<Event>, port: Port, message: Message)
    ensures var u := t + [Posted(port, message)];
            SliceEntry(u) == [] && ExportEntry(u) == [] && ProjectEntry(u) == [] && Threaded(u) == Threaded(t)
  {
    Extends(t, Posted(port, message));
  }

  lemma DeliveryIsLogged(t: seq<Event>, pending: map<Port, map<int, string>>, port: Port, reply: Reply)
    requires Tracks(t, pending)
    ensures var u := t + [Delivered(port, reply)];
            && AnsweredOp(u) == (if reply.Response? then Pending(pending, port, reply.id) else None)
            && Threaded(u) == (if reply.RuntimeState? && port in pending then Some(reply.threaded) else Threaded(t))
  {
    Extends(t, Delivered(port, reply));
  }

  lemma RequestOpens(t: seq<Event>, pending: map<Port, map<int, string>>, port: Port, id: int, op: string)
    requires Tracks(t, pending)
    ensures var known := if port in pending then pending[port] else map[];
            Tracks(t + [Posted(port, Request(id, op))], pending[port := known[id := op]])
  {
    var e := Posted(port, Request(id, op));
    Extends(t, e);
    ObservedGrows(t, e);
    hide Observed;
    var known := if port in pending then pending[port] else map[];
    var after := pending[port := known[id := op]];
    forall p: Port, i: int ensures Pending(after, p, i) == OpenOp(t + [e], p, i) {
      assert Pending(pending, p, i) == OpenOp(t, p, i);
    }
  }

  lemma ResponseCloses(t: seq<Event>, pending: map<Port, map<int, string>>, port: Port, id: int, result: Result)
    requires Tracks(t, pending)
    ensures var after := if port in pending then pending[port := pending[port] - {id}] else pending;
            Tracks(t + [Delivered(port, Response(id, result))], after)
  {
    var e := Delivered(port, Response(id, result));
    Extends(t, e);
    ObservedGrows(t, e);
    hide Observed;
    var after := if port in pending then pending[port := pending[port] - {id}] else pending;
    forall p: Port, i: int ensures Pending(after, p, i) == OpenOp(t + [e], p, i) {
      assert Pending(pending, p, i) == OpenOp(t, p, i);
    }
  }

  lemma OthersKeep(t: seq<Event>, pending: map<Port, map<int, string>>, e: Event)
    requires Tracks(t, pending)
    requires if e.Posted? then !e.message.Request? else !e.reply.Response?
    ensures Tracks(t + [e], pending)
  {
    Extends(t, e);
    ObservedGrows(t, e);
    hide Observed;
    forall p: Port, i: int ensures Pending(pending, p, i) == OpenOp(t + [e], p, i) {
      assert Pending(pending, p, i) == OpenOp(t, p, i);
    }
  }
}
