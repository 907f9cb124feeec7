/** The packing oracle of the arrangement journeys: 20 mm cubes on real beds, pairwise separated
    on an axis. What it accepts is bounded by the beds' exact capacities. */
module Packing {
  datatype Point = Point(x: real, y: real, z: real)

  datatype Bed = Bed(minX: real, maxX: real, minY: real, maxY: real)

  datatype BedState = BedState(outOfBounds: bool, bounds: Bed)

  function Abs(r: real): real {
    if r < 0.0 then -r else r
  }

  /** `toBeCloseTo` with a number of digits accepts less than half a unit of the last digit. */
  predicate CloseTo(actual: real, expected: real, halfUnit: real) {
    Abs(actual - expected) < halfUnit
  }

  const FOUR_DIGITS := 0.00005
  const FIVE_DIGITS := 0.000005

  /** The cube stands on the bed, with a hundredth of a millimetre of tolerance. */
  predicate InBed(p: Point, b: Bed) {
    && p.x - 10.0 >= b.minX - 0.01 && p.x + 10.0 <= b.maxX + 0.01
    && p.y - 10.0 >= b.minY - 0.01 && p.y + 10.0 <= b.maxY + 0.01
  }

  predicate Apart(p: Point, q: Point) {
    Abs(p.x - q.x) >= 19.99 || Abs(p.y - q.y) >= 19.99
  }

  function RealBeds(states: seq<BedState>): (beds: seq<Bed>)
    ensures forall b :: b in beds <==> exists s <- states :: !s.outOfBounds && s.bounds == b
  {
    if states == [] then []
    else
      assert states == [states[0]] + states[1..];
      (if states[0].outOfBounds then [] else [states[0].bounds]) + RealBeds(states[1..])
  }

  predicate OnSomeBed(p: Point, beds: seq<Bed>) {
    exists b <- beds :: InBed(p, b)
  }

  ghost predicate Packed(cubes: seq<Point>, beds: seq<Bed>) {
    && (forall p <- cubes :: CloseTo(p.z, 10.0, FOUR_DIGITS) && OnSomeBed(p, beds))
    && (forall i, j | 0 <= i < j < |cubes| :: Apart(cubes[i], cubes[j]))
  }

  /** `polled` is the sample that ended the wait for movement, `after` the one that is judged.
      The result tells whether every expectation held. */
  method AssertCubePacking(before: seq<Point>, polled: seq<Point>, after: seq<Point>, states: seq<BedState>) returns (ok: bool)
    ensures ok <==> polled != before && |after| == |before| && Packed(after, RealBeds(states))
  {
    if polled == before || |after| != |before| {
      return false;
    }
    var beds := RealBeds(states);
    for k := 0 to |after|
      invariant forall i | 0 <= i < k :: CloseTo(after[i].z, 10.0, FOUR_DIGITS) && OnSomeBed(after[i], beds)
    {
      assert after[k] in after;
      if !CloseTo(after[k].z, 10.0, FOUR_DIGITS) {
        return false;
      }
      if !OnSomeBed(after[k], beds) {
        return false;
      }
    }
    for i := 0 to |after|
      invariant forall a, b | 0 <= a < i && a < b < |after| :: Apart(after[a], after[b])
    {
      for j := i + 1 to |after|
        invariant forall b | i < b < j :: Apart(after[i], after[b])
      {
        if !Apart(after[i], after[j]) {
          return false;
        }
      }
    }
    return true;
  }

  ghost predicate SameCenters(actual: seq<Point>, expected: seq<Point>) {
    && |actual| == |expected|
    && forall i | 0 <= i < |actual| ::
         && CloseTo(actual[i].x, expected[i].x, FIVE_DIGITS)
         && CloseTo(actual[i].y, expected[i].y, FIVE_DIGITS)
         && CloseTo(actual[i].z, expected[i].z, FIVE_DIGITS)
  }

  method ExpectSameCenters(actual: seq<Point>, expected: seq<Point>) returns (ok: bool)
    ensures ok <==> SameCenters(actual, expected)
  {
    if |actual| != |expected| {
      return false;
    }
    for i := 0 to |actual|
      invariant SameCenters(actual[..i], expected[..i])
    {
      var a, e := actual[i], expected[i];
      assert actual[..i + 1] == actual[..i] + [a] && expected[..i + 1] == expected[..i] + [e];
      if !(CloseTo(a.x, e.x, FIVE_DIGITS) && CloseTo(a.y, e.y, FIVE_DIGITS) && CloseTo(a.z, e.z, FIVE_DIGITS)) {
        assert !SameCenters(actual, expected);
        return false;
      }
    }
    assert actual[..|actual|] == actual && expected[..|expected|] == expected;
    return true;
  }

  /** The cube's footprint, less a hundredth of a millimetre all around, lies on a bed in bounds. */
  ghost predicate Standing(p: Point, state: BedState) {
    && !state.outOfBounds
    && state.bounds.minX <= p.x - 9.99 && p.x + 9.99 <= state.bounds.maxX
    && state.bounds.minY <= p.y - 9.99 && p.y + 9.99 <= state.bounds.maxY
  }

  /** The two centres are 19.99 mm apart on some axis. */
  ghost predicate Separated(p: Point, q: Point) {
    p.x - q.x >= 19.99 || q.x - p.x >= 19.99 || p.y - q.y >= 19.99 || q.y - p.y >= 19.99
  }

  lemma StandingMeans(p: Point, states: seq<BedState>)
    ensures OnSomeBed(p, RealBeds(states)) <==> exists state <- states :: Standing(p, state)
  {
    if OnSomeBed(p, RealBeds(states)) {
      var b :| b in RealBeds(states) && InBed(p, b);
      var state :| state in states && !state.outOfBounds && state.bounds == b;
      assert Standing(p, state);
    }
    if state :| state in states && Standing(p, state) {
      assert state.bounds in RealBeds(states) && InBed(p, state.bounds);
    }
  }

  lemma SeparatedMeans(p: Point, q: Point)
    ensures Apart(p, q) <==> Separated(p, q)
  {
  }

  lemma HeightMeans(p: Point)
    ensures CloseTo(p.z, 10.0, FOUR_DIGITS) <==> 9.99995 < p.z < 10.00005
  {
  }

  /** What the check means in millimetres: a layout is packed if and only if every centre is at the
      height of a standing cube, its footprint lies on some bed that is not out of bounds, and no
      two footprints overlap on both axes. */
  lemma PackedInMillimetres(cubes: seq<Point>, states: seq<BedState>)
    ensures Packed(cubes, RealBeds(states)) <==>
              && (forall p <- cubes :: 9.99995 < p.z < 10.00005 && exists state <- states :: Standing(p, state))
              && (forall i, j | 0 <= i < j < |cubes| :: Separated(cubes[i], cubes[j]))
  {
    hide OnSomeBed, Standing, Apart, Separated, CloseTo, RealBeds;
    forall p: Point
      ensures OnSomeBed(p, RealBeds(states)) <==> exists state <- states :: Standing(p, state)
      ensures CloseTo(p.z, 10.0, FOUR_DIGITS) <==> 9.99995 < p.z < 10.00005
    {
      StandingMeans(p, states);
      HeightMeans(p);
    }
    forall p: Point, q: Point ensures Apart(p, q) <==> Separated(p, q) {
      SeparatedMeans(p, q);
    }
  }

  /** Two centres pass for the same if and only if no coordinate is off by half a unit of the fifth
      digit. */
  lemma SameInMillimetres(actual: seq<Point>, expected: seq<Point>)
    ensures SameCenters(actual, expected) <==>
              && |actual| == |expected|
              && forall i | 0 <= i < |actual| ::
                   && -0.000005 < actual[i].x - expected[i].x < 0.000005
                   && -0.000005 < actual[i].y - expected[i].y < 0.000005
                   && -0.000005 < actual[i].z - expected[i].z < 0.000005
  {
  }

  // ---------- capacity ----------

  /** The most cubes that fit side by side along a bed side of this length. */
  function Slots(length: real): (n: nat) {
    if length < 19.98 then 0 else ((length - 19.98) / 19.99).Floor + 1
  }

  function Capacity(b: Bed): nat {
    Slots(b.maxX - b.minX) * Slots(b.maxY - b.minY)
  }

  function TotalCapacity(beds: seq<Bed>): nat {
    if beds == [] then 0 else Capacity(beds[0]) + TotalCapacity(beds[1..])
  }

  /** The cell of the 19.99 mm grid on the bed that holds a cube's centre. */
  function Cell(p: Point, b: Bed): (int, int) {
    (((p.x - b.minX - 9.99) / 19.99).Floor, ((p.y - b.minY - 9.99) / 19.99).Floor)
  }

  function Row(i: int, m: nat): set<(int, int)> {
    set j | 0 <= j < m :: (i, j)
  }

  function Grid(n: nat, m: nat): set<(int, int)> {
    if n == 0 then {} else Grid(n - 1, m) + Row(n - 1, m)
  }

  lemma {:induction false} RowSize(i: int, m: nat)
    ensures |Row(i, m)| == m
  {
    if m > 0 {
      RowSize(i, m - 1);
      assert Row(i, m) == Row(i, m - 1) + {(i, m - 1)};
    }
  }

  lemma {:induction false} GridHas(n: nat, m: nat)
    ensures forall i, j :: (i, j) in Grid(n, m) <==> 0 <= i < n && 0 <= j < m
  {
    if n > 0 {
      GridHas(n - 1, m);
    }
  }

  lemma NextRowIsNew(n: nat, m: nat)
    ensures Grid(n, m) !! Row(n, m)
  {
    GridHas(n, m);
    forall c <- Row(n, m) ensures c !in Grid(n, m) {
      assert c == (n as int, c.1);
    }
  }

  lemma {:induction false} GridSize(n: nat, m: nat)
    ensures |Grid(n, m)| == n * m
  {
    hide Row;
    if n > 0 {
      GridSize(n - 1, m);
      NextRowIsNew(n - 1, m);
      RowSize(n - 1, m);
      assert n * m == (n - 1) * m + m;
    }
  }

  lemma {:induction false} SubsetSize<T>(a: set<T>, b: set<T>)
    requires a <= b
    ensures |a| <= |b|
  {
    if a != {} {
      var x :| x in a;
      SubsetSize(a - {x}, b - {x});
    }
  }

  lemma CellIsOnGrid(p: Point, b: Bed)
    requires InBed(p, b)
    ensures var (i, j) := Cell(p, b);
            0 <= i < Slots(b.maxX - b.minX) && 0 <= j < Slots(b.maxY - b.minY)
  {
  }

  lemma OneCubePerCell(p: Point, q: Point, b: Bed)
    requires Apart(p, q)
    ensures Cell(p, b) != Cell(q, b)
  {
  }

  /** Separated cubes are as many as the cells they occupy. */
  lemma {:induction false} CountCells(cubes: seq<Point>, ks: set<nat>, b: Bed) returns (cells: set<(int, int)>)
    requires forall k <- ks :: k < |cubes|
    requires forall i <- ks, j <- ks :: i != j ==> Apart(cubes[i], cubes[j])
    ensures |cells| == |ks|
    ensures forall c <- cells :: exists k <- ks :: Cell(cubes[k], b) == c
    decreases |ks|
  {
    cells := {};
    if ks != {} {
      var k :| k in ks;
      var rest := CountCells(cubes, ks - {k}, b);
      forall c <- rest ensures c != Cell(cubes[k], b) {
        var i :| i in ks - {k} && Cell(cubes[i], b) == c;
        OneCubePerCell(cubes[i], cubes[k], b);
      }
      cells := rest + {Cell(cubes[k], b)};
    }
  }

  /** No bed holds more separated cubes than its capacity. */
  lemma BedHoldsItsCapacity(cubes: seq<Point>, ks: set<nat>, b: Bed)
    requires forall k <- ks :: k < |cubes| && InBed(cubes[k], b)
    requires forall i <- ks, j <- ks :: i != j ==> Apart(cubes[i], cubes[j])
    ensures |ks| <= Capacity(b)
  {
    var n, m := Slots(b.maxX - b.minX), Slots(b.maxY - b.minY);
    var cells := CountCells(cubes, ks, b);
    GridSize(n, m);
    GridHas(n, m);
    forall c <- cells ensures c in Grid(n, m) {
      var k :| k in ks && Cell(cubes[k], b) == c;
      CellIsOnGrid(cubes[k], b);
      assert c == (c.0, c.1);
    }
    SubsetSize(cells, Grid(n, m));
  }

  lemma {:induction false} BedsHoldTheirCapacity(cubes: seq<Point>, ks: set<nat>, beds: seq<Bed>)
    requires forall k <- ks :: k < |cubes| && OnSomeBed(cubes[k], beds)
    requires forall i <- ks, j <- ks :: i != j ==> Apart(cubes[i], cubes[j])
    ensures |ks| <= TotalCapacity(beds)
    decreases |beds|
  {
    if ks != {} {
      var k :| k in ks;
      var b :| b in beds && InBed(cubes[k], b);
      var here := set k <- ks | InBed(cubes[k], beds[0]);
      assert beds == [beds[0]] + beds[1..];
      BedHoldsItsCapacity(cubes, here, beds[0]);
      BedsHoldTheirCapacity(cubes, ks - here, beds[1..]);
      assert |ks| == |here| + |ks - here|;
    }
  }

  function Indices(n: nat): (ks: set<nat>)
    ensures |ks| == n && forall k: nat :: k in ks <==> k < n
  {
    if n == 0 then {} else Indices(n - 1) + {n - 1}
  }

  /** The positions of the cubes that stand on the bed. */
  function StandingOn(cubes: seq<Point>, b: Bed): set<nat> {
    set k <- Indices(|cubes|) | InBed(cubes[k], b)
  }

  lemma ApartIsSymmetric(p: Point, q: Point)
    requires Apart(p, q)
    ensures Apart(q, p)
  {
  }

  lemma PackedPairs(cubes: seq<Point>, beds: seq<Bed>)
    requires Packed(cubes, beds)
    ensures forall i, j | 0 <= i < |cubes| && 0 <= j < |cubes| && i != j :: Apart(cubes[i], cubes[j])
  {
    forall i, j | 0 <= i < |cubes| && 0 <= j < |cubes| && i != j ensures Apart(cubes[i], cubes[j]) {
      if j < i {
        ApartIsSymmetric(cubes[j], cubes[i]);
      }
    }
  }

  /** An accepted layout has no more cubes than its beds have room for, bed by bed and in all. */
  lemma PackedFitsCapacity(cubes: seq<Point>, beds: seq<Bed>)
    requires Packed(cubes, beds)
    ensures |cubes| <= TotalCapacity(beds)
    ensures forall b :: |StandingOn(cubes, b)| <= Capacity(b)
  {
    PackedPairs(cubes, beds);
    forall k <- Indices(|cubes|) ensures OnSomeBed(cubes[k], beds) {
      assert cubes[k] in cubes;
    }
    BedsHoldTheirCapacity(cubes, Indices(|cubes|), beds);
    forall b ensures |StandingOn(cubes, b)| <= Capacity(b) {
      BedHoldsItsCapacity(cubes, StandingOn(cubes, b), b);
    }
  }

  // ---------- the capacity is reached ----------

  function LatticePoint(b: Bed, i: nat, j: nat): Point {
    Point(b.minX + 9.99 + 19.99 * (i as real), b.minY + 9.99 + 19.99 * (j as real), 10.0)
  }

  function LatticeUpTo(b: Bed, count: nat): (r: seq<Point>)
    requires Slots(b.maxX - b.minX) > 0
    ensures |r| == count
    ensures forall k | 0 <= k < count :: r[k] == LatticePoint(b, k % Slots(b.maxX - b.minX), k / Slots(b.maxX - b.minX))
  {
    if count == 0 then []
    else LatticeUpTo(b, count - 1) + [LatticePoint(b, (count - 1) % Slots(b.maxX - b.minX), (count - 1) / Slots(b.maxX - b.minX))]
  }

  function Lattice(b: Bed): seq<Point> {
    if Slots(b.maxX - b.minX) == 0 then [] else LatticeUpTo(b, Capacity(b))
  }

  lemma LatticePointFits(b: Bed, i: nat, j: nat)
    requires i < Slots(b.maxX - b.minX) && j < Slots(b.maxY - b.minY)
    ensures InBed(LatticePoint(b, i, j), b)
  {
    SlotFits(b.maxX - b.minX, i);
    SlotFits(b.maxY - b.minY, j);
  }

  lemma SlotFits(length: real, i: nat)
    requires i < Slots(length)
    ensures 19.99 * (i as real) <= length - 19.98
  {
    var q := (length - 19.98) / 19.99;
    assert i as real <= q.Floor as real <= q;
  }

  lemma LatticePointsApart(b: Bed, i: nat, j: nat, i': nat, j': nat)
    requires i != i' || j != j'
    ensures Apart(LatticePoint(b, i, j), LatticePoint(b, i', j'))
  {
    assert i < i' ==> 19.99 * (i' as real) - 19.99 * (i as real) >= 19.99;
    assert i > i' ==> 19.99 * (i as real) - 19.99 * (i' as real) >= 19.99;
    assert j < j' ==> 19.99 * (j' as real) - 19.99 * (j as real) >= 19.99;
    assert j > j' ==> 19.99 * (j as real) - 19.99 * (j' as real) >= 19.99;
  }

  lemma DivisionSplits(k: nat, n: nat, m: nat)
    requires n > 0 && k < n * m
    ensures k == n * (k / n) + k % n && k % n < n && k / n < m
  {
    LeftFactor(n, k / n, m);
  }

  lemma LeftFactor(n: nat, q: nat, m: nat)
    requires n * q < n * m
    ensures q < m
  {
    assert q >= m ==> n * q >= n * m;
  }

  lemma LatticeFits(b: Bed, k: nat)
    requires k < Capacity(b)
    ensures |Lattice(b)| == Capacity(b) && InBed(Lattice(b)[k], b) && Lattice(b)[k].z == 10.0
  {
    hide Slots, InBed;
    var n, m := Slots(b.maxX - b.minX), Slots(b.maxY - b.minY);
    DivisionSplits(k, n, m);
    LatticePointFits(b, k % n, k / n);
  }

  lemma LatticeApart(b: Bed, k: nat, l: nat)
    requires k < l < Capacity(b)
    ensures |Lattice(b)| == Capacity(b) && Apart(Lattice(b)[k], Lattice(b)[l])
  {
    hide Slots, Apart, LatticePoint;
    var n, m := Slots(b.maxX - b.minX), Slots(b.maxY - b.minY);
    DivisionSplits(k, n, m);
    DivisionSplits(l, n, m);
    LatticePointsApart(b, k % n, k / n, l % n, l / n);
  }

  /** The bound cannot be improved: for every bed there is a layout of exactly that many cubes
      which the oracle accepts. */
  lemma CapacityIsReached(b: Bed)
    ensures |Lattice(b)| == Capacity(b) && Packed(Lattice(b), [b])
  {
    hide Slots, Apart, InBed, LatticePoint;
    var L := Lattice(b);
    assert Slots(b.maxX - b.minX) == 0 ==> Capacity(b) == 0;
    forall p <- L ensures CloseTo(p.z, 10.0, FOUR_DIGITS) && OnSomeBed(p, [b]) {
      var k :| 0 <= k < |L| && L[k] == p;
      LatticeFits(b, k);
      assert b in [b] && InBed(p, b);
    }
    forall k, l | 0 <= k < l < |L| ensures Apart(L[k], L[l]) {
      LatticeApart(b, k, l);
    }
  }

  // ---------- drift ----------

  /** A layout taken for an accepted one is still separated and on its beds, up to the two
      tolerances added together. */
  lemma DriftIsBounded(actual: seq<Point>, cubes: seq<Point>, beds: seq<Bed>)
    requires Packed(cubes, beds) && SameCenters(actual, cubes)
    ensures forall i, j | 0 <= i < |actual| && 0 <= j < |actual| && i != j ::
              || Abs(actual[i].x - actual[j].x) > 19.99 - 0.00001
              || Abs(actual[i].y - actual[j].y) > 19.99 - 0.00001
    ensures forall i | 0 <= i < |actual| :: exists b <- beds ::
              && b.minX - actual[i].x + 10.0 < 0.01 + FIVE_DIGITS && actual[i].x + 10.0 - b.maxX < 0.01 + FIVE_DIGITS
              && b.minY - actual[i].y + 10.0 < 0.01 + FIVE_DIGITS && actual[i].y + 10.0 - b.maxY < 0.01 + FIVE_DIGITS
              && CloseTo(actual[i].z, 10.0, FOUR_DIGITS + FIVE_DIGITS)
  {
    PackedPairs(cubes, beds);
    forall i | 0 <= i < |actual| ensures exists b <- beds ::
              && b.minX - actual[i].x + 10.0 < 0.01 + FIVE_DIGITS && actual[i].x + 10.0 - b.maxX < 0.01 + FIVE_DIGITS
              && b.minY - actual[i].y + 10.0 < 0.01 + FIVE_DIGITS && actual[i].y + 10.0 - b.maxY < 0.01 + FIVE_DIGITS
              && CloseTo(actual[i].z, 10.0, FOUR_DIGITS + FIVE_DIGITS)
    {
      assert cubes[i] in cubes;
      var b :| b in beds && InBed(cubes[i], b);
    }
  }
}
