/** The tooth chart of `static/js/mtn.js`: four quadrants of eight teeth that
    can be marked missing, the number of marked teeth, and the number of ways
    to choose that many of the 28 teeth. */
module DentalChart {
  /** The binomial coefficient C(n, k) by Pascal's rule. */
  function Binom(n: nat, k: nat): nat
    decreases n
  {
    if k == 0 then 1
    else if n == 0 then 0
    else Binom(n - 1, k - 1) + Binom(n - 1, k)
  }

  lemma {:induction false} BinomAbove(n: nat, k: nat)
    requires k > n
    ensures Binom(n, k) == 0
    decreases n
  {
    if n > 0 {
      BinomAbove(n - 1, k - 1);
      BinomAbove(n - 1, k);
    }
  }

  lemma {:induction false} BinomAll(n: nat)
    ensures Binom(n, n) == 1
    decreases n
  {
    if n > 0 {
      BinomAll(n - 1);
      BinomAbove(n - 1, n);
    }
  }

  /** Absorption: k * C(n, k) == n * C(n - 1, k - 1). */
  lemma {:induction false} Absorb(n: nat, k: nat)
    requires 1 <= n && 1 <= k
    ensures k * Binom(n, k) == n * Binom(n - 1, k - 1)
    decreases n
  {
    if n == 1 {
      if k > 1 {
        BinomAbove(1, k);
        BinomAbove(0, k - 1);
      }
    } else if k == 1 {
      Absorb(n - 1, 1);
    } else {
      Absorb(n - 1, k);
      Absorb(n - 1, k - 1);
      var a, b := Binom(n - 1, k - 1), Binom(n - 1, k);
      var c, d := Binom(n - 2, k - 2), Binom(n - 2, k - 1);
      assert Binom(n, k) == a + b;
      assert a == c + d;
      AbsorbStep(n, k, a, b, c, d);
    }
  }

  /** The arithmetic of one inductive step of `Absorb`. */
  lemma AbsorbStep(n: int, k: int, a: int, b: int, c: int, d: int)
    requires a == c + d
    requires k * b == (n - 1) * d && (k - 1) * a == (n - 1) * c
    ensures k * (a + b) == n * a
  {
    calc {
      k * (a + b);
      (k - 1) * a + a + k * b;
      (n - 1) * c + a + (n - 1) * d;
      (n - 1) * (c + d) + a;
      n * a;
    }
  }

  /** (n - k) * C(n, k) == n * C(n - 1, k). */
  lemma Complement(n: nat, k: nat)
    requires 1 <= n
    ensures (n - k) * Binom(n, k) == n * Binom(n - 1, k)
  {
    if k >= 1 {
      Absorb(n, k);
      ComplementStep(n, k, Binom(n, k), Binom(n - 1, k - 1), Binom(n - 1, k));
    }
  }

  /** The arithmetic of `Complement`. */
  lemma ComplementStep(n: int, k: int, x: int, a: int, b: int)
    requires x == a + b && k * x == n * a
    ensures (n - k) * x == n * b
  {
    calc {
      (n - k) * x;
      n * x - k * x;
      n * (a + b) - n * a;
      n * b;
    }
  }

  /** One pass of the loop: C(n, i - 1) * (n - i + 1) == C(n, i) * i. */
  lemma LoopStep(n: nat, i: nat)
    requires 1 <= i <= n
    ensures Binom(n, i - 1) * (n - i + 1) == Binom(n, i) * i
  {
    Absorb(n, i);
    Complement(n, i - 1);
  }

  lemma {:induction false} Symmetric(n: nat, k: nat)
    requires k <= n
    ensures Binom(n, k) == Binom(n, n - k)
    decreases n
  {
    if k == 0 {
      BinomAll(n);
    } else if k == n {
      BinomAll(n);
    } else {
      Symmetric(n - 1, k - 1);
      Symmetric(n - 1, k);
      assert n - k == (n - 1 - k) + 1;
    }
  }

  /** What `calculateCombination(n, k)` stands for. */
  function Combinations(n: int, k: int): nat {
    if k < 0 || k > n then 0 else Binom(n, k)
  }

  /** The cases `calculateCombination` answers without its loop. */
  lemma CombinationsEdges(n: int, k: int)
    ensures k < 0 || k > n ==> Combinations(n, k) == 0
    ensures 0 <= n && (k == 0 || k == n) ==> Combinations(n, k) == 1
  {
    if 0 <= n && k == n {
      BinomAll(n);
    }
  }

  lemma DivExact(a: int, i: int)
    requires i > 0
    ensures (a * i) / i == a
  {
    var q, r := (a * i) / i, (a * i) % i;
    assert a * i == q * i + r && 0 <= r < i;
    ZeroMultiple(a - q, i, r);
  }

  /** The only multiple of i that lies in 0..i - 1 is zero. */
  lemma ZeroMultiple(x: int, i: int, r: int)
    requires i > 0 && r == x * i && 0 <= r < i
    ensures x == 0
  {
  }

  /** `calculateCombination`: the result after the loop is C(n, k). */
  method CalculateCombination(n: int, k: int) returns (r: int)
    ensures r == Combinations(n, k)
  {
    if k < 0 || k > n {
      return 0;
    }
    if k == 0 || k == n {
      CombinationsEdges(n, k);
      return 1;
    }
    var m := k;
    if 2 * k > n {
      Symmetric(n, k);
      m := n - k;
    }
    var result := 1;
    var i := 1;
    while i <= m
      invariant 1 <= i <= m + 1
      invariant result == Binom(n, i - 1)
    {
      LoopStep(n, i);
      DivExact(Binom(n, i), i);
      result := result * (n - i + 1) / i;
      i := i + 1;
    }
    r := result;
  }

  /** The 28 teeth the combination count chooses from. */
  const ChartTeeth: nat := 28

  /** The checkboxes per quadrant and the number of quadrants. */
  const PerQuadrant: nat := 8
  const Slots: nat := 32

  datatype Jaw = Upper | Lower
  datatype Side = Right | Left

  /** The position of a checkbox in `Object.values(teethState).flat()`:
      upperRight, upperLeft, lowerRight, lowerLeft, eight each. */
  function Slot(jaw: Jaw, side: Side, index: nat): (r: nat)
    requires index < PerQuadrant
    ensures r < Slots
  {
    var quadrant := (if jaw == Upper then 0 else 2) + (if side == Right then 0 else 1);
    quadrant * PerQuadrant + index
  }

  lemma SlotInjective(j1: Jaw, s1: Side, i1: nat, j2: Jaw, s2: Side, i2: nat)
    requires i1 < PerQuadrant && i2 < PerQuadrant
    requires Slot(j1, s1, i1) == Slot(j2, s2, i2)
    ensures j1 == j2 && s1 == s2 && i1 == i2
  {
  }

  /** `filter(Boolean).length`: the number of marked teeth. */
  function CountMarked(s: seq<bool>): nat {
    if s == [] then 0 else (if s[0] then 1 else 0) + CountMarked(s[1..])
  }

  lemma {:induction false} CountMarkedBound(s: seq<bool>)
    ensures CountMarked(s) <= |s|
    ensures (forall i :: 0 <= i < |s| ==> !s[i]) ==> CountMarked(s) == 0
  {
    if s != [] {
      CountMarkedBound(s[1..]);
    }
  }

  /** Flipping one entry moves the count by exactly one. */
  lemma {:induction false} CountMarkedFlip(s: seq<bool>, i: nat)
    requires i < |s|
    ensures CountMarked(s[i := !s[i]]) == if s[i] then CountMarked(s) - 1 else CountMarked(s) + 1
  {
    if i > 0 {
      CountMarkedFlip(s[1..], i - 1);
      assert s[i := !s[i]][1..] == s[1..][i - 1 := !s[i]];
    } else {
      assert s[i := !s[i]][1..] == s[1..];
    }
  }

  /** The React state of the `DentalChart` component once its effect has run. */
  class Chart {
    var teeth: array<bool>
    var missingCount: nat
    var combinations: int

    ghost predicate Valid()
      reads this
    {
      teeth.Length == Slots
    }

    /** The initial state (no tooth marked) and the effect of the first render. */
    constructor()
      ensures Valid() && fresh(teeth)
      ensures forall i :: 0 <= i < Slots ==> !teeth[i]
      ensures missingCount == 0 && combinations == 1
    {
      teeth := new bool[Slots](_ => false);
      missingCount := 0;
      new;
      CountMarkedBound(teeth[..]);
      CombinationsEdges(ChartTeeth, 0);
      combinations := CalculateCombination(ChartTeeth, 0);
    }

    /** The effect on `teethState`: recount and recompute the combinations. */
    method Recount()
      requires Valid()
      modifies this
      ensures Valid() && teeth == old(teeth)
      ensures missingCount == CountMarked(teeth[..])
      ensures combinations == Combinations(ChartTeeth, missingCount)
    {
      missingCount := CountMarked(teeth[..]);
      combinations := CalculateCombination(ChartTeeth, missingCount);
    }

    /** `toggleTooth` followed by the effect: one entry flips, in place. */
    method ToggleTooth(jaw: Jaw, side: Side, index: nat)
      requires Valid() && index < PerQuadrant
      modifies this, teeth
      ensures Valid() && teeth == old(teeth)
      ensures teeth[..] == old(teeth[..])[Slot(jaw, side, index) := !old(teeth[Slot(jaw, side, index)])]
      ensures missingCount == CountMarked(teeth[..])
      ensures combinations == Combinations(ChartTeeth, missingCount)
    {
      var slot := Slot(jaw, side, index);
      teeth[slot] := !teeth[slot];
      Recount();
    }

    /** `resetAll` followed by the effect: a fresh all-clear chart. */
    method ResetAll()
      requires Valid()
      modifies this
      ensures Valid() && fresh(teeth)
      ensures forall i :: 0 <= i < Slots ==> !teeth[i]
      ensures missingCount == 0 && combinations == 1
    {
      teeth := new bool[Slots](_ => false);
      CountMarkedBound(teeth[..]);
      CombinationsEdges(ChartTeeth, 0);
      Recount();
    }
  }

  /** The count lies in 0..32, and more than 28 marked teeth give no combination. */
  lemma CountsInRange(teeth: seq<bool>)
    requires |teeth| == Slots
    ensures CountMarked(teeth) <= Slots
    ensures CountMarked(teeth) > ChartTeeth ==> Combinations(ChartTeeth, CountMarked(teeth)) == 0
    ensures CountMarked(teeth) <= ChartTeeth ==> Combinations(ChartTeeth, CountMarked(teeth)) > 0
  {
    CountMarkedBound(teeth);
    if CountMarked(teeth) <= ChartTeeth {
      BinomPositive(ChartTeeth, CountMarked(teeth));
    }
  }

  lemma {:induction false} BinomPositive(n: nat, k: nat)
    requires k <= n
    ensures Binom(n, k) > 0
    decreases n
  {
    if k > 0 && k < n {
      BinomPositive(n - 1, k - 1);
    } else if k == n {
      BinomAll(n);
    }
  }

  /** Toggling the same tooth twice restores the chart. */
  lemma ToggleTwice(s: seq<bool>, i: nat)
    requires i < |s|
    ensures s[i := !s[i]][i := !s[i := !s[i]][i]] == s
  {
  }
}
