/** The undo history of the slicer worker as a value, and what each of its operations does to it.

    Models TimestampedHistory::Impl and the public operations of TimestampedHistory.cpp. Every
    operation of the source works on a staged copy and publishes it whole, so a step is a
    function from one timeline to the next. */
module History {
  import opened Wrappers
  import opened HistoryThreads

  // ---------- the retained roots ----------

  type Transform = seq<real>

  datatype MutableObject = MutableObject(
    id: nat, timestamp: nat, data: Option<Bytes>,
    volumeIds: seq<nat>, instanceIds: seq<nat>,
    volumeTransforms: seq<Transform>, instanceTransforms: seq<Transform>)

  /** `native` stands for the identity of the shared mesh. */
  datatype Mesh = Mesh(key: string, native: nat, nativeBytes: nat)

  datatype Model = Model(manifest: Bytes, objects: seq<MutableObject>, meshes: seq<Mesh>)

  /** The session and configuration roots that accompany a model. */
  datatype Context = Context(plateSession: Bytes, historyContext: Bytes, projectConfig: Bytes)

  datatype Roots = Roots(model: Model, context: Context, scenePlates: set<string>)

  datatype Snapshot = Snapshot(model: Model, context: Context)

  datatype Restored = Restored(timestamp: nat, snapshot: Snapshot, delta: SceneDelta, objectOrder: seq<nat>)

  datatype Session = Session(id: nat, entry: nat, effective: bool)

  datatype Operation = Operation(
    title: string, before: nat, depth: nat, prior: Option<Snapshot>,
    objects: seq<MutableObject>, plates: set<string>, kind: OperationKind, session: nat)

  datatype Timeline = Timeline(
    budget: nat, current: nat, floor: Option<nat>, session: Option<Session>, nextSession: nat,
    nextTimestamp: nat, nextEntry: nat, snapshots: map<nat, Snapshot>, entries: seq<Entry>,
    operation: Option<Operation>, saved: Option<nat>, savedEvicted: bool)

  /** Session ids are 64 bits wide; zero marks the space as used up. */
  const LAST_SESSION: nat := 0xFFFF_FFFF_FFFF_FFFF

  function Empty(budget: nat, nextSession: nat): Timeline {
    Timeline(budget, 0, None, None, nextSession, 1, 1, map[], [], None, None, false)
  }

  // ---------- scene deltas ----------

  function Lookup(objects: seq<MutableObject>, id: nat): (r: Option<MutableObject>)
    ensures r.Some? ==> r.value in objects && r.value.id == id
    ensures r.None? ==> forall o <- objects :: o.id != id
  {
    if objects == [] then None
    else if objects[0].id == id then Some(objects[0])
    else
      assert objects == [objects[0]] + objects[1..];
      Lookup(objects[1..], id)
  }

  function Volumes(objects: seq<MutableObject>, id: nat): set<nat> {
    match Lookup(objects, id)
    case None => {}
    case Some(o) => set v <- o.volumeIds
  }

  function Instances(objects: seq<MutableObject>, id: nat): set<nat> {
    match Lookup(objects, id)
    case None => {}
    case Some(o) => set v <- o.instanceIds
  }

  /** The objects whose records differ between the two scenes. */
  function Changed(before: seq<MutableObject>, after: seq<MutableObject>): (r: set<nat>)
    ensures forall id: nat :: id in r <==> Lookup(before, id) != Lookup(after, id)
  {
    var ids := (set o <- before :: o.id) + (set o <- after :: o.id);
    assert forall id: nat :: Lookup(before, id) != Lookup(after, id) ==> id in ids;
    set id <- ids | Lookup(before, id) != Lookup(after, id)
  }

  function DeltaBetween(before: seq<MutableObject>, beforePlates: set<string>,
                        after: seq<MutableObject>, afterPlates: set<string>): (d: SceneDelta)
    ensures Covers(d, before, after) && NamesOnly(d, before, after)
    ensures forall p: string :: p in d.plateIds <==> p in beforePlates || p in afterPlates
  {
    var changed := Changed(before, after);
    SceneDelta(
      changed,
      set id <- changed, v <- Volumes(before, id) + Volumes(after, id) :: v,
      set id <- changed, v <- Instances(before, id) + Instances(after, id) :: v,
      beforePlates + afterPlates)
  }

  /** Every object that differs between the two scenes is named, with the parts it has on
      either side. */
  ghost predicate Covers(d: SceneDelta, a: seq<MutableObject>, b: seq<MutableObject>) {
    forall id: nat :: Lookup(a, id) != Lookup(b, id) ==>
      && id in d.objectIds
      && Volumes(a, id) + Volumes(b, id) <= d.volumeIds
      && Instances(a, id) + Instances(b, id) <= d.instanceIds
  }

  /** Nothing is named that does not differ, and no part that belongs to nothing that differs. */
  ghost predicate NamesOnly(d: SceneDelta, a: seq<MutableObject>, b: seq<MutableObject>) {
    && (forall id <- d.objectIds :: Lookup(a, id) != Lookup(b, id))
    && (forall v <- d.volumeIds :: exists id <- d.objectIds :: v in Volumes(a, id) + Volumes(b, id))
    && (forall v <- d.instanceIds :: exists id <- d.objectIds :: v in Instances(a, id) + Instances(b, id))
  }

  lemma CoversCompose(d1: SceneDelta, d2: SceneDelta, a: seq<MutableObject>, b: seq<MutableObject>, c: seq<MutableObject>)
    requires Covers(d1, a, b) && Covers(d2, b, c)
    ensures Covers(Merge(d1, d2), a, c)
  {
    forall id: nat | Lookup(a, id) != Lookup(c, id)
      ensures id in Merge(d1, d2).objectIds
      ensures Volumes(a, id) + Volumes(c, id) <= Merge(d1, d2).volumeIds
      ensures Instances(a, id) + Instances(c, id) <= Merge(d1, d2).instanceIds
    {
      if Lookup(a, id) == Lookup(b, id) {
        assert Volumes(a, id) == Volumes(b, id) && Instances(a, id) == Instances(b, id);
      } else if Lookup(b, id) == Lookup(c, id) {
        assert Volumes(b, id) == Volumes(c, id) && Instances(b, id) == Instances(c, id);
      }
    }
  }

  // ---------- invariant ----------

  /** The timestamps that can be reached: archived, or live at the cursor. */
  function Available(s: Timeline): set<nat> {
    s.snapshots.Keys + {s.current}
  }

  /** The edges form threads between available timestamps; only the end of a thread may have no
      archive yet. */
  ghost predicate EdgesInv(s: Timeline) {
    && s.current < s.nextTimestamp
    && Threaded(s.entries, s.nextTimestamp)
    && (forall t <- s.snapshots :: t < s.nextTimestamp)
    && (forall e <- s.entries :: e.before in s.snapshots && e.after in Available(s))
  }

  /** The floor, the saved marker and an open operation refer to timestamps that are still there. */
  ghost predicate MarksInv(s: Timeline) {
    && (s.floor.Some? ==> s.floor.value <= s.current)
    && (s.session.Some? ==> s.floor == Some(s.session.value.entry))
    && (s.saved.Some? ==> s.saved.value in Available(s))
    && (s.operation.Some? ==>
          && s.operation.value.before == s.current
          && s.operation.value.depth >= 1
          && s.current in s.snapshots
          && (s.operation.value.prior.Some? ==> s.operation.value.prior.value.model == s.snapshots[s.current].model)
          && (s.operation.value.prior.None? ==> forall e <- s.entries :: e.before != s.current))
  }

  /** What every operation keeps. */
  ghost predicate Inv(s: Timeline) {
    EdgesInv(s) && MarksInv(s)
  }

  ghost function UndoList(s: Timeline): seq<nat>
    requires Inv(s)
  {
    Past(s.entries, s.current)
  }

  ghost function RedoList(s: Timeline): seq<nat>
    requires Inv(s)
  {
    Future(s.entries, s.current, s.nextTimestamp)
  }

  /** The undo list, the cursor and the redo list, in chronological order. */
  ghost function Visible(s: Timeline): seq<nat>
    requires Inv(s)
  {
    UndoList(s) + [s.current] + RedoList(s)
  }

  // ---------- capture ----------

  /** An archive needs non-zero, distinct object ids and distinct mesh keys. */
  predicate Capturable(m: Model) {
    && (forall i | 0 <= i < |m.objects| :: m.objects[i].id != 0)
    && (forall i, j | 0 <= i < j < |m.objects| :: m.objects[i].id != m.objects[j].id)
    && (forall i, j | 0 <= i < j < |m.meshes| :: m.meshes[i].key != m.meshes[j].key)
  }

  predicate SameShape(kept: Model, live: Model) {
    && |kept.objects| == |live.objects|
    && |kept.meshes| == |live.meshes|
    && (forall i | 0 <= i < |kept.objects| :: kept.objects[i].(data := live.objects[i].data) == live.objects[i])
    && (forall i | 0 <= i < |kept.meshes| :: kept.meshes[i].key == live.meshes[i].key)
  }

  /** Archives the live roots at the cursor, if the cursor has no archive yet. */
  function CaptureTop(s: Timeline, live: Roots): (r: Option<Timeline>) {
    if s.current in s.snapshots then Some(s)
    else if Capturable(live.model) then
      Some(s.(snapshots := s.snapshots[s.current := Snapshot(live.model, live.context)]))
    else None
  }

  // ---------- eviction ----------

  function Protected(s: Timeline): set<nat> {
    (if s.current in s.snapshots then {s.current} else {})
    + (match UndoEntry(s.entries, s.current) case None => {} case Some(e) => {e.before})
    + (match RedoEntry(s.entries, s.current) case None => {} case Some(e) => {e.after})
  }

  predicate Evictable(s: Timeline, preserveRedo: bool, t: nat) {
    t in s.snapshots && t !in Protected(s) && (preserveRedo ==> t <= s.current)
  }

  /** The oldest timestamp the budget may take. */
  function Candidate(s: Timeline, preserveRedo: bool, from: nat): (r: Option<nat>)
    ensures r.Some? ==> from <= r.value && Evictable(s, preserveRedo, r.value)
    ensures r.Some? ==> forall t | from <= t < r.value :: !Evictable(s, preserveRedo, t)
    ensures r.None? ==> forall t | from <= t < s.nextTimestamp :: !Evictable(s, preserveRedo, t)
    decreases s.nextTimestamp - from
  {
    if from >= s.nextTimestamp then None
    else if Evictable(s, preserveRedo, from) then Some(from)
    else Candidate(s, preserveRedo, from + 1)
  }

  /** Erases archives; losing the saved one is remembered. */
  function Erase(s: Timeline, lost: set<nat>): Timeline {
    var t := s.(snapshots := s.snapshots - lost);
    if s.saved.Some? && s.saved.value in lost && s.saved.value in s.snapshots
    then t.(saved := None, savedEvicted := true)
    else t
  }

  function PruneEntries(s: Timeline): Timeline {
    s.(entries := Retain(s.entries, Available(s)))
  }

  function Evict(s: Timeline, t: nat): Timeline {
    PruneEntries(Erase(s, {t}))
  }

  /** Evicts the oldest unprotected archive for as long as the accounting exceeds the budget. */
  function Enforce(s: Timeline, bytes: Timeline -> nat, preserveRedo: bool): Timeline
    decreases |s.snapshots|
  {
    if bytes(s) <= s.budget then s
    else match Candidate(s, preserveRedo, 0)
         case None => s
         case Some(t) =>
           assert Evict(s, t).snapshots.Keys == s.snapshots.Keys - {t};
           Enforce(Evict(s, t), bytes, preserveRedo)
  }

  /** Enforcement takes archives, edges and perhaps the saved marker, and nothing else. */
  lemma {:induction false} EnforceKeepsRest(s: Timeline, bytes: Timeline -> nat, preserveRedo: bool)
    ensures var u := Enforce(s, bytes, preserveRedo);
            u == s.(snapshots := u.snapshots, entries := u.entries, saved := u.saved, savedEvicted := u.savedEvicted)
    decreases |s.snapshots|
  {
    hide Evictable;
    if bytes(s) > s.budget && Candidate(s, preserveRedo, 0).Some? {
      var x := Candidate(s, preserveRedo, 0).value;
      EvictShrinks(s, preserveRedo, x);
      EnforceKeepsRest(Evict(s, x), bytes, preserveRedo);
    }
  }

  /** `u` has lost the `k` oldest undo steps and the redo steps from `m` on: never the
      neighbours of the cursor, and redo steps only once a single undo step is left. */
  ghost predicate ListsTrimmed(s: Timeline, u: Timeline, k: nat, m: nat)
    requires Inv(s) && Inv(u)
  {
    && k <= |UndoList(s)| && m <= |RedoList(s)|
    && UndoList(u) == UndoList(s)[k..]
    && RedoList(u) == RedoList(s)[..m]
    && (UndoList(s) != [] ==> UndoList(u) != [])
    && (RedoList(s) != [] ==> RedoList(u) != [])
    && (m < |RedoList(s)| ==> |UndoList(u)| <= 1)
  }

  /** `u` differs from `s` only by lost archives and edges, and by a saved marker that is given
      up exactly when its archive is lost. */
  ghost predicate OnlyLost(s: Timeline, u: Timeline) {
    && (forall t <- u.snapshots :: t in s.snapshots && u.snapshots[t] == s.snapshots[t])
    && (s.current in s.snapshots ==> s.current in u.snapshots)
    && (forall e <- u.entries :: e in s.entries)
    && ((u.saved == s.saved && u.savedEvicted == s.savedEvicted) || SavedLost(s, u))
    && u == s.(snapshots := u.snapshots, entries := u.entries, saved := u.saved, savedEvicted := u.savedEvicted)
  }

  ghost predicate SavedLost(s: Timeline, u: Timeline) {
    s.saved.Some? && u.saved == None && u.savedEvicted && s.saved.value !in Available(u)
  }

  lemma ListsAreArchived(s: Timeline)
    requires Inv(s)
    ensures forall t <- UndoList(s) :: t in s.snapshots && t < s.current
    ensures forall t <- RedoList(s) :: t in s.snapshots && s.current < t
    ensures forall i, j | 0 <= i < j < |UndoList(s)| :: UndoList(s)[i] < UndoList(s)[j]
    ensures forall i, j | 0 <= i < j < |RedoList(s)| :: RedoList(s)[i] < RedoList(s)[j]
  {
    hide Threaded, MarksInv;
    ThreadsPointForward(s.entries, s.nextTimestamp);
    PastIsAscending(s.entries, s.current);
    FutureIsAscending(s.entries, s.current, s.nextTimestamp);
    forall t | t in UndoList(s) ensures t in s.snapshots && t < s.current {
      var e :| e in s.entries && e.before == t;
    }
    forall t | t in RedoList(s) ensures t in s.snapshots && s.current < t {
      var e :| e in s.entries && e.after == t;
    }
  }

  lemma EvictKeepsInv(s: Timeline, preserveRedo: bool, x: nat)
    requires Inv(s) && Evictable(s, preserveRedo, x)
    ensures Inv(Evict(s, x)) && LosesTimestamp(s.entries, Evict(s, x).entries, x)
    ensures x != s.current == Evict(s, x).current && Evict(s, x).nextTimestamp == s.nextTimestamp
  {
    hide Threaded;
    var u := Evict(s, x);
    assert x != s.current && Available(u) == Available(s) - {x};
    RetainStaysThreaded(s.entries, Available(u), s.nextTimestamp);
    assert EdgesInv(u) by { hide MarksInv; }
    assert MarksInv(u) by { hide EdgesInv; }
  }

  lemma EvictOnlyLoses(s: Timeline, preserveRedo: bool, x: nat)
    requires Evictable(s, preserveRedo, x)
    ensures OnlyLost(s, Evict(s, x))
  {
  }

  /** The candidate is no neighbour of the cursor, and a redo step only when at most one undo
      step is left. */
  lemma CandidateIsFar(s: Timeline, preserveRedo: bool, x: nat)
    requires Inv(s) && Candidate(s, preserveRedo, 0) == Some(x)
    ensures x != s.current && (preserveRedo ==> x !in RedoList(s))
    ensures UndoList(s) != [] ==> UndoList(s)[|UndoList(s)| - 1] != x
    ensures RedoList(s) != [] ==> RedoList(s)[0] != x
    ensures x > s.current ==> |UndoList(s)| <= 1
  {
    hide Threaded, MarksInv;
    ListsAreArchived(s);
    var P, F := UndoList(s), RedoList(s);
    assert P != [] ==> P[|P| - 1] in Protected(s);
    assert F != [] ==> F[0] in Protected(s);
    if |P| > 1 {
      assert P[0] in P && P[0] < P[|P| - 1];
      assert F != [] ==> F[0] in F;
      assert Evictable(s, preserveRedo, P[0]);
    }
  }

  lemma EvictTrims(s: Timeline, preserveRedo: bool, x: nat) returns (k: nat, m: nat)
    requires Inv(s) && Candidate(s, preserveRedo, 0) == Some(x)
    ensures Inv(Evict(s, x)) && ListsTrimmed(s, Evict(s, x), k, m)
    ensures preserveRedo ==> m == |RedoList(s)|
  {
    hide EdgesInv, MarksInv, UndoList, RedoList, Retain, Erase, Protected, Available;
    EvictKeepsInv(s, preserveRedo, x);
    ListsAreArchived(s);
    CandidateIsFar(s, preserveRedo, x);
    k, m := CutLists(s, Evict(s, x), x);
    if m < |RedoList(s)| {
      assert RedoList(s)[m] in RedoList(s);
    }
  }

  lemma CutLists(s: Timeline, u: Timeline, x: nat) returns (k: nat, m: nat)
    requires Inv(s) && Inv(u) && x != s.current
    requires u.current == s.current && u.nextTimestamp == s.nextTimestamp
    requires LosesTimestamp(s.entries, u.entries, x)
    ensures k <= |UndoList(s)| && UndoList(u) == UndoList(s)[k..] && (k > 0 ==> UndoList(s)[k - 1] == x)
    ensures m <= |RedoList(s)| && RedoList(u) == RedoList(s)[..m] && (m < |RedoList(s)| ==> RedoList(s)[m] == x)
  {
    hide Threaded, MarksInv;
    k := PastAfterLoss(s.entries, u.entries, x, s.current, s.nextTimestamp);
    m := FutureAfterLoss(s.entries, u.entries, x, s.current, s.nextTimestamp);
  }

  lemma TrimsCompose(s: Timeline, u: Timeline, v: Timeline, k0: nat, m0: nat, k1: nat, m1: nat)
    requires Inv(s) && Inv(u) && Inv(v)
    requires ListsTrimmed(s, u, k0, m0) && ListsTrimmed(u, v, k1, m1)
    ensures ListsTrimmed(s, v, k0 + k1, m1) && |RedoList(u)| == m0
  {
    hide EdgesInv, MarksInv, UndoList, RedoList;
  }

  lemma LossesCompose(s: Timeline, u: Timeline, v: Timeline)
    requires OnlyLost(s, u) && OnlyLost(u, v)
    ensures OnlyLost(s, v)
  {
  }

  lemma TrimsNothing(s: Timeline)
    requires Inv(s)
    ensures ListsTrimmed(s, s, 0, |RedoList(s)|) && OnlyLost(s, s)
  {
    hide EdgesInv, MarksInv, UndoList, RedoList;
  }

  /** The budget only ever trims the two ends of the line, whatever the accounting is. */
  lemma {:induction false} EnforceTrims(s: Timeline, bytes: Timeline -> nat, preserveRedo: bool) returns (k: nat, m: nat)
    requires Inv(s)
    ensures var u := Enforce(s, bytes, preserveRedo);
            Inv(u) && OnlyLost(s, u) && ListsTrimmed(s, u, k, m)
    ensures preserveRedo ==> m == |RedoList(s)|
    decreases |s.snapshots|
  {
    hide EdgesInv, MarksInv, UndoList, RedoList, Evict, Evictable, Protected, OnlyLost, ListsTrimmed;
    k, m := 0, |RedoList(s)|;
    TrimsNothing(s);
    if bytes(s) > s.budget && Candidate(s, preserveRedo, 0).Some? {
      var x := Candidate(s, preserveRedo, 0).value;
      var u := Evict(s, x);
      EvictShrinks(s, preserveRedo, x);
      EvictOnlyLoses(s, preserveRedo, x);
      var k0, m0 := EvictTrims(s, preserveRedo, x);
      var k1, m1 := EnforceTrims(u, bytes, preserveRedo);
      TrimsCompose(s, u, Enforce(s, bytes, preserveRedo), k0, m0, k1, m1);
      LossesCompose(s, u, Enforce(s, bytes, preserveRedo));
      k, m := k0 + k1, m1;
    }
  }

  lemma EvictShrinks(s: Timeline, preserveRedo: bool, x: nat)
    requires Evictable(s, preserveRedo, x)
    ensures |Evict(s, x).snapshots| < |s.snapshots|
  {
    assert Evict(s, x).snapshots.Keys == s.snapshots.Keys - {x};
  }

  /** Enforcement stops only within the budget or with nothing left that it may take. */
  lemma {:induction false} EnforceReachesBudget(s: Timeline, bytes: Timeline -> nat, preserveRedo: bool)
    requires Inv(s)
    ensures var u := Enforce(s, bytes, preserveRedo);
            bytes(u) <= u.budget || forall t <- u.snapshots :: !Evictable(u, preserveRedo, t)
    decreases |s.snapshots|
  {
    hide Threaded, MarksInv, Evict, Evictable;
    if bytes(s) <= s.budget {
    } else if Candidate(s, preserveRedo, 0).None? {
      assert forall t <- s.snapshots :: t < s.nextTimestamp;
    } else {
      var x := Candidate(s, preserveRedo, 0).value;
      EvictShrinks(s, preserveRedo, x);
      EvictKeepsInv(s, preserveRedo, x);
      EnforceReachesBudget(Evict(s, x), bytes, preserveRedo);
      assert Enforce(s, bytes, preserveRedo) == Enforce(Evict(s, x), bytes, preserveRedo);
    }
  }
}
