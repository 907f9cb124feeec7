/** The quit barrier of the host smoke entry: quitting is held back until the host, once it
    exists, has been closed. Any interleaving of quit attempts, host creation and the settling of
    the close call. */
module QuitBarrier {

  datatype Event = HostCreated | WillQuit | CloseResolved | CloseRejected

  ghost function Front(t: seq<Event>): seq<Event>
    requires t != []
  {
    t[..|t| - 1]
  }

  ghost function Last(t: seq<Event>): Event
    requires t != []
  {
    t[|t| - 1]
  }

  /** A quit attempt came after the host existed. */
  ghost predicate CloseRequested(t: seq<Event>) {
    t != [] && (CloseRequested(Front(t)) || (Last(t) == WillQuit && HostCreated in Front(t)))
  }

  /** A quit attempt after `t` is let through. */
  ghost predicate Passes(t: seq<Event>) {
    HostCreated !in t || CloseResolved in t
  }

  /** Some quit attempt was let through. */
  ghost predicate Exited(t: seq<Event>) {
    t != [] && (Exited(Front(t)) || (Last(t) == WillQuit && Passes(Front(t))))
  }

  /** What can happen after `t`: the host is created once, the close call settles once and only
      after it was made, and nothing happens once the application has quit. */
  ghost predicate Possible(t: seq<Event>, e: Event) {
    && !Exited(t)
    && (e == HostCreated ==> HostCreated !in t)
    && (e == CloseResolved || e == CloseRejected ==> CloseRequested(t) && CloseResolved !in t && CloseRejected !in t)
  }

  ghost predicate Legal(t: seq<Event>) {
    t != [] ==> Legal(Front(t)) && Possible(Front(t), Last(t))
  }

  class Barrier {
    var host: bool
    var stopping: bool
    var stopped: bool
    /** The calls of `host.close` so far. */
    var closeCalls: nat
    ghost var trace: seq<Event>

    /** The fields say of the trace what the barrier needs to know, and no more. */
    ghost predicate Valid()
      reads this
    {
      && Legal(trace)
      && (host <==> HostCreated in trace)
      && (stopping <==> CloseRequested(trace))
      && (stopped <==> CloseResolved in trace)
      && closeCalls == (if stopping then 1 else 0)
    }

    constructor ()
      ensures Valid() && trace == []
    {
      host, stopping, stopped, closeCalls, trace := false, false, false, 0, [];
    }

    method Create()
      requires Valid() && Possible(trace, HostCreated)
      modifies this
      ensures Valid() && trace == old(trace) + [HostCreated] && closeCalls == old(closeCalls)
    {
      Extend(trace, HostCreated);
      host := true;
      trace := trace + [HostCreated];
    }

    /** The handler of a quit attempt; `prevented` tells whether it held the attempt back. */
    method OnWillQuit() returns (prevented: bool)
      requires Valid() && Possible(trace, WillQuit)
      modifies this
      ensures Valid() && trace == old(trace) + [WillQuit]
      ensures prevented <==> !Passes(old(trace))
      ensures Exited(trace) <==> !prevented
      ensures closeCalls == old(closeCalls) + if prevented && !old(CloseRequested(trace)) then 1 else 0
    {
      Extend(trace, WillQuit);
      NoExitWithOpenHost(trace);
      hide Legal, Exited, CloseRequested;
      prevented := false;
      if !(stopped || !host) {
        prevented := true;
        if !stopping {
          stopping := true;
          closeCalls := closeCalls + 1;
        }
      }
      trace := trace + [WillQuit];
    }

    /** The close call has completed; the application is asked to quit again. */
    method OnClosed()
      requires Valid() && Possible(trace, CloseResolved)
      modifies this
      ensures Valid() && trace == old(trace) + [CloseResolved] && closeCalls == old(closeCalls)
      ensures Passes(trace) && Possible(trace, WillQuit)
    {
      Extend(trace, CloseResolved);
      stopped := true;
      trace := trace + [CloseResolved];
    }

    /** Nothing handles a close call that fails. */
    method OnCloseFailed()
      requires Valid() && Possible(trace, CloseRejected)
      modifies this
      ensures Valid() && trace == old(trace) + [CloseRejected] && closeCalls == old(closeCalls)
      ensures unchanged(`host) && unchanged(`stopping) && unchanged(`stopped)
    {
      Extend(trace, CloseRejected);
      trace := trace + [CloseRejected];
    }
  }

  lemma Extend(t: seq<Event>, e: Event)
    requires Legal(t) && Possible(t, e)
    ensures Legal(t + [e])
    ensures CloseRequested(t + [e]) <==> CloseRequested(t) || (HostCreated in t && e == WillQuit)
    ensures Exited(t + [e]) <==> e == WillQuit && Passes(t)
  {
    assert Front(t + [e]) == t && Last(t + [e]) == e;
  }

  // ---------- every legal run ----------

  /** In every legal run: the close call settles in one way only and not before it was made, and
      the application never exits between the creation of the host and the completion of its
      close call; the attempt that exits is the last event. */
  lemma {:induction false} NoExitWithOpenHost(t: seq<Event>)
    requires Legal(t)
    ensures CloseRequested(t) ==> HostCreated in t
    ensures CloseResolved in t || CloseRejected in t ==> CloseRequested(t)
    ensures !(CloseResolved in t && CloseRejected in t)
    ensures Exited(t) ==> Last(t) == WillQuit && Passes(Front(t)) && (HostCreated in t ==> CloseResolved in t)
  {
    if t != [] {
      NoExitWithOpenHost(Front(t));
      assert t == Front(t) + [Last(t)];
    }
  }

  /** The host can be created, an attempt can make the close call, and the call can fail. */
  lemma CloseCanFail()
    ensures Legal([HostCreated, WillQuit, CloseRejected])
    ensures !Passes([HostCreated, WillQuit, CloseRejected]) && Possible([HostCreated, WillQuit, CloseRejected], WillQuit)
  {
    assert Legal([]);
    Extend([], HostCreated);
    Extend([HostCreated], WillQuit);
    assert [HostCreated] + [WillQuit] == [HostCreated, WillQuit];
    Extend([HostCreated, WillQuit], CloseRejected);
    assert [HostCreated, WillQuit] + [CloseRejected] == [HostCreated, WillQuit, CloseRejected];
  }

  /** While the close call has not completed, no attempt passes; a call that never settles holds
      the application back as one that fails does. */
  lemma UnsettledCloseHoldsBack(t: seq<Event>)
    requires Legal(t) && HostCreated in t && CloseResolved !in t
    ensures !Exited(t) && !Passes(t)
  {
    NoExitWithOpenHost(t);
  }

  /** If the close call fails, no run whatever ends in an exit, and no attempt will pass. */
  lemma FailedCloseNeverExits(t: seq<Event>)
    requires Legal(t) && CloseRejected in t
    ensures !Exited(t) && !Passes(t)
  {
    NoExitWithOpenHost(t);
  }

  /** Once the host exists, the application can exit at all exactly if its close call has
      completed; the follow-up attempt after completion is possible and passes. */
  lemma CompletedCloseExits(t: seq<Event>)
    requires Legal(t) && Possible(t, CloseResolved)
    ensures var u := t + [CloseResolved];
            Legal(u) && Passes(u) && Possible(u, WillQuit) && Exited(u + [WillQuit])
  {
    Extend(t, CloseResolved);
    Extend(t + [CloseResolved], WillQuit);
  }
}
