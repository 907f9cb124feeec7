/** The 32-bit xorshift generator behind the noise image of the storage journey: seed 12345,
    shifts 13, 17 (unsigned, section 13.9 of ECMA-262) and 5. */
module Xorshift {
  const SEED: bv32 := 12345

  function Left13(x: bv32): bv32 {
    x ^ (x << 13)
  }

  function Right17(x: bv32): bv32 {
    x ^ (x >> 17)
  }

  function Left5(x: bv32): bv32 {
    x ^ (x << 5)
  }

  function Next(x: bv32): bv32 {
    Left5(Right17(Left13(x)))
  }

  /** The state after `n` steps. */
  function Iterate(n: nat, x: bv32): bv32 {
    if n == 0 then x else Next(Iterate(n - 1, x))
  }

  function LowByte(x: bv32): bv32 {
    x & 255
  }

  /** Fills the pixel buffer; `seed` is the generator's state afterwards. */
  method FillPixels(data: array<bv32>) returns (seed: bv32)
    modifies data
    ensures seed == Iterate(data.Length, SEED)
    ensures forall i | 0 <= i < data.Length :: data[i] == LowByte(Iterate(i + 1, SEED)) && IsByte(data[i])
  {
    hide LowByte, Left13, Right17, Left5, IsByte;
    seed := SEED;
    for i := 0 to data.Length
      invariant seed == Iterate(i, SEED)
      invariant forall j | 0 <= j < i :: data[j] == LowByte(Iterate(j + 1, SEED)) && IsByte(data[j])
    {
      seed := Left13(seed);
      seed := Right17(seed);
      seed := Left5(seed);
      LowByteIsByte(seed);
      data[i] := LowByte(seed);
    }
  }

  predicate IsByte(x: bv32) {
    x < 256
  }

  lemma LowByteIsByte(x: bv32)
    ensures IsByte(LowByte(x))
  {
  }

  // ---------- every step can be taken back ----------

  function Unleft13(y: bv32): bv32 {
    y ^ (y << 13) ^ (y << 26)
  }

  function Unright17(y: bv32): bv32 {
    y ^ (y >> 17)
  }

  function Unleft5(y: bv32): bv32 {
    y ^ (y << 5) ^ (y << 10) ^ (y << 15) ^ (y << 20) ^ (y << 25) ^ (y << 30)
  }

  function Previous(y: bv32): bv32 {
    Unleft13(Unright17(Unleft5(y)))
  }

  // The solver cancels the shifts only in the written-out form, so each step has three lemmas.

  lemma Left13Is(x: bv32)
    ensures Left13(x) == x ^ (x << 13) && Unleft13(x) == x ^ (x << 13) ^ (x << 26)
  {
  }

  lemma Left13Cancels(x: bv32)
    ensures Unleft13(x ^ (x << 13)) == x && Left13(x ^ (x << 13) ^ (x << 26)) == x
  {
  }

  lemma Left13Undone(x: bv32)
    ensures Unleft13(Left13(x)) == x && Left13(Unleft13(x)) == x
  {
    hide *;
    Left13Is(x);
    Left13Cancels(x);
  }

  lemma Right17Is(x: bv32)
    ensures Right17(x) == x ^ (x >> 17) && Unright17(x) == x ^ (x >> 17)
  {
  }

  lemma Right17Cancels(x: bv32)
    ensures Unright17(x ^ (x >> 17)) == x && Right17(x ^ (x >> 17)) == x
  {
  }

  lemma Right17Undone(x: bv32)
    ensures Unright17(Right17(x)) == x && Right17(Unright17(x)) == x
  {
    hide *;
    Right17Is(x);
    Right17Cancels(x);
  }

  lemma Left5Is(x: bv32)
    ensures Left5(x) == x ^ (x << 5) && Unleft5(x) == x ^ (x << 5) ^ (x << 10) ^ (x << 15) ^ (x << 20) ^ (x << 25) ^ (x << 30)
  {
  }

  lemma Left5Cancels(x: bv32)
    ensures Unleft5(x ^ (x << 5)) == x && Left5(x ^ (x << 5) ^ (x << 10) ^ (x << 15) ^ (x << 20) ^ (x << 25) ^ (x << 30)) == x
  {
  }

  lemma Left5Undone(x: bv32)
    ensures Unleft5(Left5(x)) == x && Left5(Unleft5(x)) == x
  {
    hide *;
    Left5Is(x);
    Left5Cancels(x);
  }

  lemma ShiftsUndo(x: bv32)
    ensures Unleft13(Left13(x)) == x && Left13(Unleft13(x)) == x
    ensures Unright17(Right17(x)) == x && Right17(Unright17(x)) == x
    ensures Unleft5(Left5(x)) == x && Left5(Unleft5(x)) == x
  {
    hide Left13, Right17, Left5, Unleft13, Unright17, Unleft5;
    Left13Undone(x);
    Right17Undone(x);
    Left5Undone(x);
  }

  /** `Previous` undoes `Next`, and the other way round: the step is a permutation of all states. */
  lemma StepIsReversible(x: bv32)
    ensures Previous(Next(x)) == x && Next(Previous(x)) == x
  {
    hide Left13, Right17, Left5, Unleft13, Unright17, Unleft5;
    ShiftsUndo(x);
    ShiftsUndo(Left13(x));
    ShiftsUndo(Right17(Left13(x)));
    ShiftsUndo(Unleft5(x));
    ShiftsUndo(Unright17(Unleft5(x)));
  }

  lemma ZeroIsFixed()
    ensures Next(0) == 0 && Previous(0) == 0
  {
  }

  lemma {:induction false} IterateAdds(m: nat, n: nat, x: bv32)
    ensures Iterate(m + n, x) == Iterate(m, Iterate(n, x))
  {
    if m > 0 {
      IterateAdds(m - 1, n, x);
    }
  }

  /** For every number of steps, different seeds lead to different states. */
  lemma {:induction false} IterateIsInjective(n: nat, x: bv32, y: bv32)
    requires Iterate(n, x) == Iterate(n, y)
    ensures x == y
  {
    if n > 0 {
      StepIsReversible(Iterate(n - 1, x));
      StepIsReversible(Iterate(n - 1, y));
      IterateIsInjective(n - 1, x, y);
    }
  }

  lemma {:induction false} ZeroStays(n: nat)
    ensures Iterate(n, 0) == 0
  {
    ZeroIsFixed();
    if n > 0 {
      ZeroStays(n - 1);
    }
  }

  /** The generator dies exactly if it is seeded with zero. */
  lemma NeverZero(n: nat, x: bv32)
    ensures Iterate(n, x) == 0 <==> x == 0
  {
    ZeroStays(n);
    if Iterate(n, x) == 0 {
      IterateIsInjective(n, x, 0);
    }
  }

  /** If any two states of a run coincide, the seed itself has recurred as many steps after the
      start as lie between them: the first repetition is the seed. */
  lemma RepetitionReachesSeed(i: nat, j: nat, x: bv32)
    requires i < j && Iterate(i, x) == Iterate(j, x)
    ensures Iterate(j - i, x) == x
  {
    IterateAdds(i, j - i, x);
    IterateIsInjective(i, Iterate(j - i, x), x);
  }

  // ---------- every run is one cycle ----------

  const WORDS: nat := 0x1_0000_0000

  function Number(x: bv32): nat {
    x as nat
  }

  lemma NumberIsBounded(x: bv32)
    ensures Number(x) < WORDS
  {
  }

  lemma NumberIsInjective(x: bv32, y: bv32)
    requires Number(x) == Number(y)
    ensures x == y
  {
    assert Number(x) as bv32 == x;
  }

  /** The numbers of the first `n` states of a run. */
  ghost function Seen(n: nat, x: bv32): set<nat> {
    set i: nat | i < n :: Number(Iterate(i, x))
  }

  lemma {:induction false} SubsetSize(a: set<nat>, n: nat)
    requires forall v <- a :: v < n
    ensures |a| <= n
  {
    if n > 0 {
      SubsetSize(a - {n - 1}, n - 1);
    }
  }

  lemma {:induction false} DistinctAreCounted(n: nat, x: bv32)
    requires forall i, j | 0 <= i < j < n :: Iterate(i, x) != Iterate(j, x)
    ensures |Seen(n, x)| == n
  {
    hide Iterate, Number;
    if n > 0 {
      DistinctAreCounted(n - 1, x);
      forall i: nat | i < n - 1 ensures Number(Iterate(i, x)) != Number(Iterate(n - 1, x)) {
        if Number(Iterate(i, x)) == Number(Iterate(n - 1, x)) {
          NumberIsInjective(Iterate(i, x), Iterate(n - 1, x));
        }
      }
      assert Seen(n, x) == Seen(n - 1, x) + {Number(Iterate(n - 1, x))};
    } else {
      assert Seen(0, x) == {};
    }
  }

  /** Two of the first 2^32 + 1 states of any run coincide. */
  lemma RunsRepeat(x: bv32) returns (i: nat, j: nat)
    ensures i < j <= WORDS && Iterate(i, x) == Iterate(j, x)
  {
    hide Iterate, Number;
    if forall i, j | 0 <= i < j < WORDS + 1 :: Iterate(i, x) != Iterate(j, x) {
      DistinctAreCounted(WORDS + 1, x);
      var seen := Seen(WORDS + 1, x);
      forall v <- seen ensures v < WORDS {
        var k: nat :| k < WORDS + 1 && Number(Iterate(k, x)) == v;
        NumberIsBounded(Iterate(k, x));
      }
      SubsetSize(seen, WORDS);
    }
    i, j :| 0 <= i < j < WORDS + 1 && Iterate(i, x) == Iterate(j, x);
  }

  ghost predicate Returns(p: nat, x: bv32) {
    p > 0 && Iterate(p, x) == x
  }

  lemma {:induction false} LeastReturn(n: nat, x: bv32) returns (p: nat)
    requires Returns(n, x)
    ensures Returns(p, x) && p <= n && forall q: nat | q < p :: !Returns(q, x)
    decreases n
  {
    hide Returns;
    if q: nat :| q < n && Returns(q, x) {
      p := LeastReturn(q, x);
    } else {
      p := n;
    }
  }

  lemma {:induction false} WholeTurns(k: nat, p: nat, x: bv32)
    requires Iterate(p, x) == x
    ensures Iterate(k * p, x) == x
  {
    if k == 0 {
      assert k * p == 0;
    } else {
      WholeTurns(k - 1, p, x);
      IterateAdds((k - 1) * p, p, x);
      assert (k - 1) * p + p == k * p;
    }
  }

  /** Every run is a pure cycle of some length p <= 2^32: two of its states are equal exactly if a
      whole number of turns lies between them. So the first p entries of the buffer come from
      different states, whatever the seed. */
  lemma RunIsOneCycle(x: bv32) returns (p: nat)
    ensures 0 < p <= WORDS
    ensures forall i: nat, j: nat | i <= j :: Iterate(i, x) == Iterate(j, x) <==> (j - i) % p == 0
  {
    var a, b := RunsRepeat(x);
    RepetitionReachesSeed(a, b, x);
    p := LeastReturn(b - a, x);
    forall i: nat, j: nat | i <= j ensures Iterate(i, x) == Iterate(j, x) <==> (j - i) % p == 0 {
      TurnsBetween(i, j, p, x);
    }
  }

  lemma Split(d: nat, p: nat) returns (k: nat, r: nat)
    requires p > 0
    ensures d == r + k * p && r == d % p < p
  {
    k, r := d / p, d % p;
  }

  lemma TurnsBetween(i: nat, j: nat, p: nat, x: bv32)
    requires i <= j && Returns(p, x) && forall q: nat | q < p :: !Returns(q, x)
    ensures Iterate(i, x) == Iterate(j, x) <==> (j - i) % p == 0
  {
    hide Iterate;
    var k, r := Split(j - i, p);
    IterateAdds(i, j - i, x);
    IterateAdds(r, k * p, x);
    WholeTurns(k, p, x);
    if Iterate(i, x) == Iterate(j, x) {
      IterateIsInjective(i, x, Iterate(j - i, x));
      assert Iterate(r, x) == x;
      assert r != 0 ==> Returns(r, x);
    } else {
      NoSteps(x);
    }
  }

  lemma NoSteps(x: bv32)
    ensures Iterate(0, x) == x
  {
  }
}
