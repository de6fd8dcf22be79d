/** Day 7: align the crabs' horizontal positions at the cheapest position.
    A cost calculator sums a per-crab fuel cost over all crabs for one
    target position, and the optimum is searched by brute force over the
    target positions 0 .. len - 1, that is, over the indices of the data
    and not over its values. */
module Day07 {
  import opened Common

  /** `abs_diff`: the distance between two u64 values, taking the larger
      minus the smaller so that the subtraction never goes below zero. */
  function AbsDiff(a: nat, b: nat): (r: nat)
    ensures a <= b ==> a + r == b
    ensures b <= a ==> b + r == a
  {
    if a > b then a - b else b - a
  }

  /** `acc_diff`: the fuel for a distance `d` when the k-th step costs k,
      computed in two ways depending on the parity of `d` so that the
      halving is exact. */
  function AccDiff(a: nat, b: nat): nat {
    var d := AbsDiff(a, b);
    if d % 2 == 0 then (1 + d) * d / 2 else (d * (d - 1) / 2) + d
  }

  /** Reference definition: 1 + 2 + ... + d, one step at a time. */
  function Triangle(d: nat): nat {
    if d == 0 then 0 else Triangle(d - 1) + d
  }

  /** The cost function a calculator was built with:
      `new_with_liner_cost` or `new_with_accumulative_cost`. */
  datatype CostCalculator = Linear | Accumulative {
    /** `cost_func` applied to one crab at `x` and the target `step`. */
    function Cost(x: nat, step: nat): nat {
      match this
      case Linear => AbsDiff(x, step)
      case Accumulative => AccDiff(x, step)
    }

    /** `compute_cost`: the sum of `cost_func(x, step)` over the data. */
    function ComputeCost(data: seq<nat>, step: nat): nat
      decreases |data|
    {
      if data == [] then 0 else Cost(data[0], step) + ComputeCost(data[1..], step)
    }

    /** The running minimum of `optimal_cost` after the candidates
        0 .. k - 1, starting from u64::MAX. */
    function Best(data: seq<nat>, k: nat): nat {
      if k == 0 then U64Max else Min(Best(data, k - 1), ComputeCost(data, k - 1))
    }

    /** `optimal_cost`: the smallest total cost over the targets
        0 .. |data| - 1, or u64::MAX if that is smaller or there are none. */
    method OptimalCost(data: seq<nat>) returns (min: nat)
      ensures min == Best(data, |data|)
      ensures min <= U64Max
      ensures forall n :: 0 <= n < |data| ==> min <= ComputeCost(data, n)
      ensures min == U64Max || exists n :: 0 <= n < |data| && min == ComputeCost(data, n)
    {
      min := U64Max;
      for n := 0 to |data|
        invariant min == Best(data, n)
      {
        min := Min(min, ComputeCost(data, n));
      }
      BestIsLeast(this, data, |data|);
    }
  }

  function Min(a: nat, b: nat): nat {
    if a < b then a else b
  }

  /** `abs_diff` is the absolute difference, symmetric, and zero only on
      equal arguments. */
  lemma AbsDiffIsDistance(a: nat, b: nat)
    ensures AbsDiff(a, b) == AbsDiff(b, a)
    ensures AbsDiff(a, b) as int == if a < b then b - a else a - b
    ensures AbsDiff(a, b) == 0 <==> a == b
  {
  }

  /** The closed form of the reference: 2 * (1 + ... + d) == d * (d + 1). */
  lemma {:induction false} TriangleClosed(d: nat)
    ensures 2 * Triangle(d) == d * (d + 1)
  {
    if d > 0 {
      TriangleClosed(d - 1);
      assert (d - 1) * d + 2 * d == d * (d + 1);
    }
  }

  /** Both parity branches of `acc_diff` give 1 + 2 + ... + d for the
      distance d, that is d * (d + 1) / 2. */
  lemma AccDiffIsTriangle(a: nat, b: nat)
    ensures AccDiff(a, b) == Triangle(AbsDiff(a, b))
    ensures 2 * AccDiff(a, b) == AbsDiff(a, b) * (AbsDiff(a, b) + 1)
  {
    var d := AbsDiff(a, b);
    TriangleClosed(d);
    var h := d / 2;
    if d % 2 == 0 {
      assert d == 2 * h;
      assert (1 + d) * d == 2 * ((1 + d) * h);
    } else {
      assert d - 1 == 2 * h;
      assert d * (d - 1) == 2 * (d * h);
      assert d * (d + 1) == 2 * (d * h + d);
    }
  }

  /** Either cost is zero exactly when the crab already is at the target. */
  lemma CostZeroIff(calculator: CostCalculator, x: nat, step: nat)
    ensures calculator.Cost(x, step) == 0 <==> x == step
  {
    AbsDiffIsDistance(x, step);
    AccDiffIsTriangle(x, step);
  }

  /** The total for one more crab in front. */
  lemma ComputeCostCons(calculator: CostCalculator, x: nat, rest: seq<nat>, step: nat)
    ensures calculator.ComputeCost([x] + rest, step) == calculator.Cost(x, step) + calculator.ComputeCost(rest, step)
  {
    assert ([x] + rest)[1..] == rest;
  }

  /** The total over two groups of crabs is the sum of their totals. */
  lemma {:induction false} ComputeCostAppend(calculator: CostCalculator, a: seq<nat>, b: seq<nat>, step: nat)
    ensures calculator.ComputeCost(a + b, step) == calculator.ComputeCost(a, step) + calculator.ComputeCost(b, step)
    decreases |a|
  {
    if a == [] {
      assert a + b == b;
    } else {
      assert (a + b)[1..] == a[1..] + b;
      ComputeCostAppend(calculator, a[1..], b, step);
    }
  }

  /** The total is zero exactly when every crab is at the target. */
  lemma {:induction false} ComputeCostZeroIff(calculator: CostCalculator, data: seq<nat>, step: nat)
    ensures calculator.ComputeCost(data, step) == 0 <==> forall i :: 0 <= i < |data| ==> data[i] == step
    decreases |data|
  {
    if data != [] {
      ComputeCostZeroIff(calculator, data[1..], step);
      CostZeroIff(calculator, data[0], step);
      assert forall i :: 1 <= i < |data| ==> data[i] == data[1..][i - 1];
    }
  }

  /** The running minimum is below u64::MAX and below every candidate seen,
      and it is u64::MAX or one of those candidates' costs. */
  lemma {:induction false} BestIsLeast(calculator: CostCalculator, data: seq<nat>, k: nat)
    ensures calculator.Best(data, k) <= U64Max
    ensures forall n :: 0 <= n < k ==> calculator.Best(data, k) <= calculator.ComputeCost(data, n)
    ensures calculator.Best(data, k) == U64Max || exists n :: 0 <= n < k && calculator.Best(data, k) == calculator.ComputeCost(data, n)
  {
    if k > 0 {
      BestIsLeast(calculator, data, k - 1);
      if calculator.Best(data, k) != U64Max {
        var n := BestWitness(calculator, data, k);
      }
    }
  }

  /** A running minimum below u64::MAX is the cost of a candidate seen. */
  lemma {:induction false} BestWitness(calculator: CostCalculator, data: seq<nat>, k: nat) returns (n: nat)
    requires 0 < k && calculator.Best(data, k) != U64Max
    ensures n < k && calculator.Best(data, k) == calculator.ComputeCost(data, n)
  {
    var prev := calculator.Best(data, k - 1);
    if prev < calculator.ComputeCost(data, k - 1) {
      n := BestWitness(calculator, data, k - 1);
    } else {
      n := k - 1;
    }
  }

  /** When some candidate costs no more than u64::MAX, the optimum is
      attained at a candidate; with no data there is no candidate and the
      optimum is u64::MAX. */
  lemma BestAttained(calculator: CostCalculator, data: seq<nat>, n: nat)
    requires n < |data| && calculator.ComputeCost(data, n) <= U64Max
    ensures exists m :: 0 <= m < |data| && calculator.Best(data, |data|) == calculator.ComputeCost(data, m)
  {
    BestIsLeast(calculator, data, |data|);
  }

  lemma NoDataNoCandidate(calculator: CostCalculator)
    ensures calculator.Best([], 0) == U64Max
  {
  }

  /** The candidates are the indices, not the crabs' positions: one crab
      at 5 is never moved to 5, and the optimum is its cost at target 0. */
  lemma IndicesNotValues()
    ensures Linear.Best([5], 1) == 5
    ensures Linear.ComputeCost([5], 5) == 0
  {
    assert Linear.ComputeCost([5], 0) == 5;
    assert [5][1..] == [];
  }

  /** The crabs of the puzzle's example. */
  const Example: seq<nat> := [16, 1, 2, 0, 4, 2, 7, 1, 2, 14]

  /** The total from crab `k` on is crab `k`'s cost plus the total after it. */
  lemma ComputeCostFrom(calculator: CostCalculator, data: seq<nat>, k: nat, step: nat)
    requires k < |data|
    ensures calculator.ComputeCost(data[k..], step) == calculator.Cost(data[k], step) + calculator.ComputeCost(data[k + 1..], step)
  {
    assert data[k..][1..] == data[k + 1..];
  }

  /** The total over ten crabs, crab by crab. */
  lemma CostTen(calculator: CostCalculator, data: seq<nat>, step: nat)
    requires |data| == 10
    ensures calculator.ComputeCost(data, step)
         == calculator.Cost(data[0], step) + calculator.Cost(data[1], step) + calculator.Cost(data[2], step)
          + calculator.Cost(data[3], step) + calculator.Cost(data[4], step) + calculator.Cost(data[5], step)
          + calculator.Cost(data[6], step) + calculator.Cost(data[7], step) + calculator.Cost(data[8], step)
          + calculator.Cost(data[9], step)
  {
    assert data[0..] == data;
    assert data[10..] == [];
    ComputeCostFrom(calculator, data, 0, step);
    ComputeCostFrom(calculator, data, 1, step);
    ComputeCostFrom(calculator, data, 2, step);
    ComputeCostFrom(calculator, data, 3, step);
    ComputeCostFrom(calculator, data, 4, step);
    ComputeCostFrom(calculator, data, 5, step);
    ComputeCostFrom(calculator, data, 6, step);
    ComputeCostFrom(calculator, data, 7, step);
    ComputeCostFrom(calculator, data, 8, step);
    ComputeCostFrom(calculator, data, 9, step);
  }

  /** The example's total for one calculator and one target, from the
      costs of the seven distinct positions (1 and 2 occur two and three
      times). */
  lemma ExampleCost(calculator: CostCalculator, step: nat, c0: nat, c1: nat, c2: nat, c4: nat, c7: nat, c14: nat, c16: nat, total: nat)
    requires calculator.Cost(0, step) == c0 && calculator.Cost(1, step) == c1 && calculator.Cost(2, step) == c2
    requires calculator.Cost(4, step) == c4 && calculator.Cost(7, step) == c7
    requires calculator.Cost(14, step) == c14 && calculator.Cost(16, step) == c16
    requires total == c0 + 2 * c1 + 3 * c2 + c4 + c7 + c14 + c16
    ensures calculator.ComputeCost(Example, step) == total
  {
    CostTen(calculator, Example, step);
  }

  /** The linear totals of the example, one target per lemma: 41 at 1, 37 at 2, 39 at 3 and 71 at 10 are the values the source's tests name. */
  lemma LinearAt0()
    ensures Linear.ComputeCost(Example, 0) == 49
  {
    ExampleCost(Linear, 0, 0, 1, 2, 4, 7, 14, 16, 49);
  }

  lemma LinearAt1()
    ensures Linear.ComputeCost(Example, 1) == 41
  {
    ExampleCost(Linear, 1, 1, 0, 1, 3, 6, 13, 15, 41);
  }

  lemma LinearAt2()
    ensures Linear.ComputeCost(Example, 2) == 37
  {
    ExampleCost(Linear, 2, 2, 1, 0, 2, 5, 12, 14, 37);
  }

  lemma LinearAt3()
    ensures Linear.ComputeCost(Example, 3) == 39
  {
    ExampleCost(Linear, 3, 3, 2, 1, 1, 4, 11, 13, 39);
  }

  lemma LinearAt4()
    ensures Linear.ComputeCost(Example, 4) == 41
  {
    ExampleCost(Linear, 4, 4, 3, 2, 0, 3, 10, 12, 41);
  }

  lemma LinearAt5()
    ensures Linear.ComputeCost(Example, 5) == 45
  {
    ExampleCost(Linear, 5, 5, 4, 3, 1, 2, 9, 11, 45);
  }

  lemma LinearAt6()
    ensures Linear.ComputeCost(Example, 6) == 49
  {
    ExampleCost(Linear, 6, 6, 5, 4, 2, 1, 8, 10, 49);
  }

  lemma LinearAt7()
    ensures Linear.ComputeCost(Example, 7) == 53
  {
    ExampleCost(Linear, 7, 7, 6, 5, 3, 0, 7, 9, 53);
  }

  lemma LinearAt8()
    ensures Linear.ComputeCost(Example, 8) == 59
  {
    ExampleCost(Linear, 8, 8, 7, 6, 4, 1, 6, 8, 59);
  }

  lemma LinearAt9()
    ensures Linear.ComputeCost(Example, 9) == 65
  {
    ExampleCost(Linear, 9, 9, 8, 7, 5, 2, 5, 7, 65);
  }

  lemma LinearAt10()
    ensures Linear.ComputeCost(Example, 10) == 71
  {
    ExampleCost(Linear, 10, 10, 9, 8, 6, 3, 4, 6, 71);
  }

  /** The running minimum over ten candidates, given their totals. */
  lemma BestTen(calculator: CostCalculator, data: seq<nat>, c0: nat, c1: nat, c2: nat, c3: nat, c4: nat, c5: nat, c6: nat, c7: nat, c8: nat, c9: nat)
    requires calculator.ComputeCost(data, 0) == c0 && calculator.ComputeCost(data, 1) == c1
    requires calculator.ComputeCost(data, 2) == c2 && calculator.ComputeCost(data, 3) == c3
    requires calculator.ComputeCost(data, 4) == c4 && calculator.ComputeCost(data, 5) == c5
    requires calculator.ComputeCost(data, 6) == c6 && calculator.ComputeCost(data, 7) == c7
    requires calculator.ComputeCost(data, 8) == c8 && calculator.ComputeCost(data, 9) == c9
    ensures calculator.Best(data, 10)
         == Min(Min(Min(Min(Min(Min(Min(Min(Min(Min(U64Max, c0), c1), c2), c3), c4), c5), c6), c7), c8), c9)
  {
    assert calculator.Best(data, 1) == Min(U64Max, c0);
    assert calculator.Best(data, 2) == Min(calculator.Best(data, 1), c1);
    assert calculator.Best(data, 3) == Min(calculator.Best(data, 2), c2);
    assert calculator.Best(data, 4) == Min(calculator.Best(data, 3), c3);
    assert calculator.Best(data, 5) == Min(calculator.Best(data, 4), c4);
    assert calculator.Best(data, 6) == Min(calculator.Best(data, 5), c5);
    assert calculator.Best(data, 7) == Min(calculator.Best(data, 6), c6);
    assert calculator.Best(data, 8) == Min(calculator.Best(data, 7), c7);
    assert calculator.Best(data, 9) == Min(calculator.Best(data, 8), c8);
  }

  /** The linear optimum of the example is 37, at target 2. */
  lemma LinearOptimum()
    ensures Linear.Best(Example, |Example|) == 37
  {
    LinearAt0(); LinearAt1(); LinearAt2(); LinearAt3(); LinearAt4();
    LinearAt5(); LinearAt6(); LinearAt7(); LinearAt8(); LinearAt9();
    BestTen(Linear, Example, 49, 41, 37, 39, 41, 45, 49, 53, 59, 65);
  }

  /** The accumulative totals of the example, one target per lemma. */
  lemma AccumulativeAt0()
    ensures Accumulative.ComputeCost(Example, 0) == 290
  {
    ExampleCost(Accumulative, 0, 0, 1, 3, 10, 28, 105, 136, 290);
  }

  lemma AccumulativeAt1()
    ensures Accumulative.ComputeCost(Example, 1) == 242
  {
    ExampleCost(Accumulative, 1, 1, 0, 1, 6, 21, 91, 120, 242);
  }

  lemma AccumulativeAt2()
    ensures Accumulative.ComputeCost(Example, 2) == 206
  {
    ExampleCost(Accumulative, 2, 3, 1, 0, 3, 15, 78, 105, 206);
  }

  lemma AccumulativeAt3()
    ensures Accumulative.ComputeCost(Example, 3) == 183
  {
    ExampleCost(Accumulative, 3, 6, 3, 1, 1, 10, 66, 91, 183);
  }

  lemma AccumulativeAt4()
    ensures Accumulative.ComputeCost(Example, 4) == 170
  {
    ExampleCost(Accumulative, 4, 10, 6, 3, 0, 6, 55, 78, 170);
  }

  lemma AccumulativeAt5()
    ensures Accumulative.ComputeCost(Example, 5) == 168
  {
    ExampleCost(Accumulative, 5, 15, 10, 6, 1, 3, 45, 66, 168);
  }

  lemma AccumulativeAt6()
    ensures Accumulative.ComputeCost(Example, 6) == 176
  {
    ExampleCost(Accumulative, 6, 21, 15, 10, 3, 1, 36, 55, 176);
  }

  lemma AccumulativeAt7()
    ensures Accumulative.ComputeCost(Example, 7) == 194
  {
    ExampleCost(Accumulative, 7, 28, 21, 15, 6, 0, 28, 45, 194);
  }

  lemma AccumulativeAt8()
    ensures Accumulative.ComputeCost(Example, 8) == 223
  {
    ExampleCost(Accumulative, 8, 36, 28, 21, 10, 1, 21, 36, 223);
  }

  lemma AccumulativeAt9()
    ensures Accumulative.ComputeCost(Example, 9) == 262
  {
    ExampleCost(Accumulative, 9, 45, 36, 28, 15, 3, 15, 28, 262);
  }

  /** The accumulative optimum of the example is 168, at target 5. */
  lemma AccumulativeOptimum()
    ensures Accumulative.Best(Example, |Example|) == 168
  {
    AccumulativeAt0(); AccumulativeAt1(); AccumulativeAt2(); AccumulativeAt3(); AccumulativeAt4();
    AccumulativeAt5(); AccumulativeAt6(); AccumulativeAt7(); AccumulativeAt8(); AccumulativeAt9();
    BestTen(Accumulative, Example, 290, 242, 206, 183, 170, 168, 176, 194, 223, 262);
  }
}
