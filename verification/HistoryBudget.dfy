/** What the budget takes, told by the two lists alone: the oldest archive that is neither at the
    cursor nor one step away from it, again and again, until memory suffices or nothing else is
    left. */
module HistoryBudget {
  import opened Wrappers
  import opened HistoryThreads
  import opened History
  import opened HistorySteps
  import opened HistoryNavigation

  /** The cursor and the timestamps one Undo and one Redo away from it. */
  ghost predicate Near(s: Timeline, t: nat)
    requires Inv(s)
  {
    || t == s.current
    || (UndoList(s) != [] && t == UndoList(s)[|UndoList(s)| - 1])
    || (RedoList(s) != [] && t == RedoList(s)[0])
  }

  /** What enforcement may not take: nothing but the near archives and, on request, those ahead of
      the cursor. */
  ghost predicate Spared(s: Timeline, preserveRedo: bool, t: nat)
    requires Inv(s)
  {
    Near(s, t) || (preserveRedo && t > s.current)
  }

  lemma NearIsProtected(s: Timeline, t: nat)
    requires Inv(s) && t in s.snapshots
    ensures Near(s, t) <==> t in Protected(s)
  {
    hide Threaded, MarksInv;
    EdgesPointForward(s);
    var U, R := UndoList(s), RedoList(s);
    match UndoEntry(s.entries, s.current) {
      case None => assert U == [];
      case Some(e) => assert U == Past(s.entries, e.before) + [e.before];
    }
    match RedoEntry(s.entries, s.current) {
      case None => assert R == [];
      case Some(e) => assert R[0] == e.after;
    }
  }

  lemma EvictableIsNotSpared(s: Timeline, preserveRedo: bool, t: nat)
    requires Inv(s)
    ensures Evictable(s, preserveRedo, t) <==> t in s.snapshots && !Spared(s, preserveRedo, t)
  {
    hide Inv, Protected, Near;
    if t in s.snapshots {
      NearIsProtected(s, t);
    }
  }

  /** Enforcement ends within the budget, or with nothing but what it may not take. */
  lemma OnlyNearIsLeft(s: Timeline, bytes: Timeline -> nat, preserveRedo: bool)
    requires Inv(s)
    ensures var u := Enforce(s, bytes, preserveRedo);
            && Inv(u) && u.budget == s.budget
            && (bytes(u) > u.budget ==> forall t <- u.snapshots :: Spared(u, preserveRedo, t))
  {
    hide Inv, Enforce, Evictable, Spared, ListsTrimmed;
    var k, m := EnforceTrims(s, bytes, preserveRedo);
    EnforceReachesBudget(s, bytes, preserveRedo);
    var u := Enforce(s, bytes, preserveRedo);
    forall t | t in u.snapshots && bytes(u) > u.budget ensures Spared(u, preserveRedo, t) {
      EvictableIsNotSpared(u, preserveRedo, t);
    }
  }

  /** `u` is `s` without the archive at `x` and the edges at it; a saved marker there is given up,
      and that is remembered. */
  ghost predicate WithoutArchive(s: Timeline, u: Timeline, x: nat) {
    && u == s.(snapshots := s.snapshots - {x}, entries := u.entries,
               saved := if s.saved == Some(x) then None else s.saved,
               savedEvicted := s.savedEvicted || s.saved == Some(x))
    && LosesTimestamp(s.entries, u.entries, x)
  }

  /** With memory to spare, or nothing to take, enforcement changes nothing. */
  lemma NothingIsTakenInVain(s: Timeline, bytes: Timeline -> nat, preserveRedo: bool)
    requires Inv(s) && (bytes(s) <= s.budget || forall t <- s.snapshots :: Spared(s, preserveRedo, t))
    ensures Enforce(s, bytes, preserveRedo) == s
  {
    hide Inv, Evictable, Spared;
    if bytes(s) > s.budget && Candidate(s, preserveRedo, 0).Some? {
      EvictableIsNotSpared(s, preserveRedo, Candidate(s, preserveRedo, 0).value);
    }
  }

  /** Otherwise it takes the oldest archive that it may take, exactly as if that had been gone
      before, and goes on from there. */
  lemma OldestIsTaken(s: Timeline, bytes: Timeline -> nat, preserveRedo: bool, x: nat) returns (u: Timeline)
    requires Inv(s) && bytes(s) > s.budget
    requires x in s.snapshots && !Spared(s, preserveRedo, x)
    requires forall t <- s.snapshots | t < x :: Spared(s, preserveRedo, t)
    ensures Inv(u) && WithoutArchive(s, u, x)
    ensures Enforce(s, bytes, preserveRedo) == Enforce(u, bytes, preserveRedo)
  {
    hide Inv, Evictable, Spared, Evict;
    EvictableIsNotSpared(s, preserveRedo, x);
    forall t: nat | t < x ensures !Evictable(s, preserveRedo, t) {
      EvictableIsNotSpared(s, preserveRedo, t);
    }
    ArchivesArePast(s);
    OldestIsCandidate(s, preserveRedo, 0, x);
    EvictShrinks(s, preserveRedo, x);
    EvictKeepsInv(s, preserveRedo, x);
    u := Evict(s, x);
    EvictTakesOne(s, x);
  }

  lemma ArchivesArePast(s: Timeline)
    requires Inv(s)
    ensures forall t <- s.snapshots :: t < s.nextTimestamp
  {
    hide Threaded, MarksInv;
  }

  lemma EvictTakesOne(s: Timeline, x: nat)
    requires x in s.snapshots && LosesTimestamp(s.entries, Evict(s, x).entries, x)
    ensures WithoutArchive(s, Evict(s, x), x)
  {
  }

  lemma {:induction false} OldestIsCandidate(s: Timeline, preserveRedo: bool, from: nat, x: nat)
    requires from <= x < s.nextTimestamp && Evictable(s, preserveRedo, x)
    requires forall t: nat | t < x :: !Evictable(s, preserveRedo, t)
    ensures Candidate(s, preserveRedo, from) == Some(x)
    decreases x - from
  {
    hide Evictable;
    if from < x {
      OldestIsCandidate(s, preserveRedo, from + 1, x);
    }
  }

  // ---------- the calls that enforce it ----------

  /** After a jump, a commit or a new budget, memory suffices or only the cursor's archive and its
      two neighbours are left. */
  ghost predicate WithinBudgetOrNear(u: Timeline, bytes: Timeline -> nat, preserveRedo: bool)
    requires Inv(u)
  {
    bytes(u) > u.budget ==> forall t <- u.snapshots :: Spared(u, preserveRedo, t)
  }

  lemma JumpMeetsBudget(s: Timeline, target: nat, live: Option<Roots>, bytes: Timeline -> nat)
    requires Inv(s) && Restore(s, target, live, bytes).Some?
    ensures var u := Restore(s, target, live, bytes).value.0;
            Inv(u) && u.budget == s.budget && WithinBudgetOrNear(u, bytes, false)
  {
    hide Inv, Restore, Enforce, ListsTrimmed, OnlyLost, Visible, CanLeave, AtCursor, Spared;
    var k, m := RestoreMovesAlongLine(s, target, live, bytes);
    OnlyNearIsLeft(Moved(s, target, live), bytes, false);
  }

  lemma NewBudgetIsMet(s: Timeline, budget: nat, bytes: Timeline -> nat)
    requires Inv(s)
    ensures var u := SetBudget(s, budget, bytes);
            Inv(u) && u.budget == budget && u.current == s.current && WithinBudgetOrNear(u, bytes, false)
  {
    hide Enforce, Threaded, Spared;
    assert Inv(s.(budget := budget));
    hide Inv;
    OnlyNearIsLeft(s.(budget := budget), bytes, false);
    EnforceKeepsRest(s.(budget := budget), bytes, false);
  }
}
