/** Day 3, part 2: find the oxygen generator and CO2 scrubber ratings by
    repeatedly keeping the rows whose bit at the current position is the
    most (oxygen) or least (CO2) common one, then multiply the ratings. */
module Day03Part2 {
  import Day03
  import opened Common

  type Bits = seq<nat>

  datatype RatingType = OxygenGenerator | CO2Scrubber

  /** What `find_rating_inner` ends with: a rating, no candidate left, or
      the panic of `Bits::nth` when some row is too short for the position. */
  datatype Outcome = Found(bits: Bits) | NoCandidate | OutOfRange

  /** `Bits::to_u64`: the bits read from the last one, the i-th from the end
      adding `bit << i`. */
  function ToU64(b: Bits): nat {
    ToU64Fold(b, 0, 0)
  }

  function ToU64Fold(b: Bits, i: nat, acc: nat): nat
    decreases |b|
  {
    if b == [] then acc else ToU64Fold(b[..|b| - 1], i + 1, acc + b[|b| - 1] * Day03.Pow2(i))
  }

  /** The fold reads the bits most significant first: it is the value that
      part one uses for gamma and epsilon. */
  lemma {:induction false} ToU64FoldValue(b: Bits, i: nat, acc: nat)
    ensures ToU64Fold(b, i, acc) == acc + Day03.Value(b) * Day03.Pow2(i)
    decreases |b|
  {
    if b != [] {
      var init, last := b[..|b| - 1], b[|b| - 1];
      ToU64FoldValue(init, i + 1, acc + last * Day03.Pow2(i));
      Day03.ValueSnoc(init, last);
      assert init + [last] == b;
      ShiftIn(Day03.Value(init), last, Day03.Pow2(i));
    }
  }

  /** Shifting a bit in at weight `p`. */
  lemma ShiftIn(v: nat, b: nat, p: nat)
    ensures (2 * v + b) * p == v * (2 * p) + b * p
  {
    assert (2 * v + b) * p == 2 * v * p + b * p;
  }

  lemma ToU64IsValue(b: Bits)
    ensures ToU64(b) == Day03.Value(b)
  {
    ToU64FoldValue(b, 0, 0);
  }

  /** Every row is long enough to be read at `pos`. */
  predicate Reaches(data: seq<Bits>, pos: nat) {
    forall k :: 0 <= k < |data| ==> pos < |data[k]|
  }

  /** One side of the partition at `pos`, in the original order: the rows
      whose bit there is set (`one`) or clear (`!one`). */
  function Select(data: seq<Bits>, pos: nat, one: bool): (r: seq<Bits>)
    ensures |r| <= |data|
    decreases |data|
  {
    if data == [] then []
    else
      var rest := Select(data[1..], pos, one);
      if pos < |data[0]| && (data[0][pos] > 0) == one then [data[0]] + rest else rest
  }

  /** Each selected row comes from `data` and has the requested bit. */
  lemma {:induction false} SelectFrom(data: seq<Bits>, pos: nat, one: bool)
    requires Reaches(data, pos)
    ensures forall k :: 0 <= k < |Select(data, pos, one)| ==>
              Select(data, pos, one)[k] in data && pos < |Select(data, pos, one)[k]| &&
              (Select(data, pos, one)[k][pos] > 0) == one
    decreases |data|
  {
    if data != [] {
      SelectFrom(data[1..], pos, one);
      assert forall v :: v in data[1..] ==> v in data;
    }
  }

  /** The partition keeps exactly the matching rows. */
  lemma {:induction false} SelectMembers(data: seq<Bits>, pos: nat, one: bool)
    requires Reaches(data, pos)
    ensures forall v :: v in Select(data, pos, one) <==> v in data && (v[pos] > 0) == one
    decreases |data|
  {
    SelectFrom(data, pos, one);
    if data != [] {
      SelectMembers(data[1..], pos, one);
      assert forall v :: v in data <==> v == data[0] || v in data[1..];
    }
  }

  /** Between them the two sides hold every row exactly once. */
  lemma {:induction false} SelectSplits(data: seq<Bits>, pos: nat)
    requires Reaches(data, pos)
    ensures multiset(Select(data, pos, true)) + multiset(Select(data, pos, false)) == multiset(data)
    ensures |Select(data, pos, true)| + |Select(data, pos, false)| == |data|
    decreases |data|
  {
    if data != [] {
      SelectSplits(data[1..], pos);
      assert data == [data[0]] + data[1..];
    }
  }

  /** When every row has the same bit at `pos`, one side is everything and
      the other is empty. */
  lemma {:induction false} SelectAlike(data: seq<Bits>, pos: nat, one: bool)
    requires Reaches(data, pos)
    requires forall k :: 0 <= k < |data| ==> (data[k][pos] > 0) == one
    ensures Select(data, pos, one) == data
    ensures Select(data, pos, !one) == []
    decreases |data|
  {
    if data != [] {
      SelectAlike(data[1..], pos, one);
      assert [data[0]] + data[1..] == data;
    }
  }

  /** The side to continue with: oxygen keeps the ones unless the zeros are
      strictly more, CO2 keeps the zeros unless the zeros are strictly more. */
  function Choose(t: RatingType, has1: seq<Bits>, has0: seq<Bits>): (r: seq<Bits>)
    ensures r == has1 || r == has0
    ensures t.OxygenGenerator? ==> |r| >= |has1| && |r| >= |has0|
    ensures t.CO2Scrubber? ==> |r| <= |has1| && |r| <= |has0|
    ensures |has1| == |has0| ==> r == if t.OxygenGenerator? then has1 else has0
  {
    if |has1| >= |has0| then
      (match t case OxygenGenerator => has1 case CO2Scrubber => has0)
    else
      (match t case OxygenGenerator => has0 case CO2Scrubber => has1)
  }

  /** The length of the longest row. */
  function MaxLen(data: seq<Bits>): (m: nat)
    ensures forall k :: 0 <= k < |data| ==> |data[k]| <= m
  {
    if data == [] then 0
    else
      var m := MaxLen(data[1..]);
      if |data[0]| > m then |data[0]| else m
  }

  /** Some row is as long as the longest. */
  lemma {:induction false} MaxLenAttained(data: seq<Bits>)
    requires data != []
    ensures exists k :: 0 <= k < |data| && |data[k]| == MaxLen(data)
  {
    if |data| > 1 && |data[0]| <= MaxLen(data[1..]) {
      MaxLenAttained(data[1..]);
      var k :| 0 <= k < |data[1..]| && |data[1..][k]| == MaxLen(data[1..]);
      assert |data[k + 1]| == MaxLen(data);
    } else {
      assert |data[0]| == MaxLen(data);
    }
  }

  /** Rows taken from `data` are no longer than its longest. */
  lemma SubsetMaxLen(sub: seq<Bits>, data: seq<Bits>)
    requires forall k :: 0 <= k < |sub| ==> sub[k] in data
    ensures MaxLen(sub) <= MaxLen(data)
  {
    if sub != [] {
      MaxLenAttained(sub);
      var k :| 0 <= k < |sub| && |sub[k]| == MaxLen(sub);
      var j :| 0 <= j < |data| && data[j] == sub[k];
    }
  }

  /** `find_rating_inner`. */
  function FindRating(t: RatingType, data: seq<Bits>, pos: nat): Outcome
    decreases MaxLen(data) - pos
  {
    if |data| == 0 then NoCandidate
    else if |data| == 1 then Found(data[0])
    else if !Reaches(data, pos) then OutOfRange
    else
      var next := Choose(t, Select(data, pos, true), Select(data, pos, false));
      SelectFrom(data, pos, true);
      SelectFrom(data, pos, false);
      SubsetMaxLen(next, data);
      FindRating(t, next, pos + 1)
  }

  /** Any rating found is one of the rows it started from. */
  lemma {:induction false} FoundIsMember(t: RatingType, data: seq<Bits>, pos: nat)
    ensures FindRating(t, data, pos).Found? ==> FindRating(t, data, pos).bits in data
    decreases MaxLen(data) - pos
  {
    if |data| >= 2 && Reaches(data, pos) {
      var next := Choose(t, Select(data, pos, true), Select(data, pos, false));
      SelectFrom(data, pos, true);
      SelectFrom(data, pos, false);
      SubsetMaxLen(next, data);
      FoundIsMember(t, next, pos + 1);
    }
  }

  /** No rows: no rating. One row: that row, whatever the position. */
  lemma SmallInputs(t: RatingType, v: Bits, pos: nat)
    ensures FindRating(t, [], pos) == NoCandidate
    ensures FindRating(t, [v], pos) == Found(v)
  {
  }

  /** The oxygen rating always keeps the larger side, so from a non-empty
      list of rows it never runs out of candidates. */
  lemma {:induction false} OxygenNeverEmpty(data: seq<Bits>, pos: nat)
    requires data != []
    ensures FindRating(OxygenGenerator, data, pos) != NoCandidate
    decreases MaxLen(data) - pos
  {
    if |data| >= 2 && Reaches(data, pos) {
      var has1, has0 := Select(data, pos, true), Select(data, pos, false);
      SelectSplits(data, pos);
      var next := Choose(OxygenGenerator, has1, has0);
      SelectFrom(data, pos, true);
      SelectFrom(data, pos, false);
      SubsetMaxLen(next, data);
      OxygenNeverEmpty(next, pos + 1);
    }
  }

  /** When two or more rows all have the same bit at `pos`, the CO2 rating
      keeps the empty side and finds nothing. */
  lemma CO2AllAlike(data: seq<Bits>, pos: nat)
    requires |data| >= 2 && Reaches(data, pos)
    requires forall k :: 0 <= k < |data| ==> (data[k][pos] > 0) == (data[0][pos] > 0)
    ensures FindRating(CO2Scrubber, data, pos) == NoCandidate
  {
    SelectAlike(data, pos, data[0][pos] > 0);
  }

  /** `solve_inner`: the product of the two ratings; either search failing
      is the `unwrap` panic. */
  function SolveInner(data: seq<Bits>): Option<nat> {
    match FindRating(OxygenGenerator, data, 0)
    case Found(o) =>
      (match FindRating(CO2Scrubber, data, 0)
       case Found(c) => Some(Mul(ToU64(o), ToU64(c)))
       case _ => None)
    case _ => None
  }

  /** The answer is the product of two of the rows, each read as a binary
      number. */
  lemma SolveInnerIsProductOfRows(data: seq<Bits>)
    requires SolveInner(data).Some?
    ensures exists o, c :: o in data && c in data && SolveInner(data).value == Day03.Value(o) * Day03.Value(c)
  {
    var o := FindRating(OxygenGenerator, data, 0).bits;
    var c := FindRating(CO2Scrubber, data, 0).bits;
    FoundIsMember(OxygenGenerator, data, 0);
    FoundIsMember(CO2Scrubber, data, 0);
    ToU64IsValue(o);
    ToU64IsValue(c);
  }

  /* ---------------------------------------------------------------------
     The example
     --------------------------------------------------------------------- */

  /** One round of the search. */
  lemma Step(t: RatingType, data: seq<Bits>, pos: nat, next: seq<Bits>)
    requires |data| >= 2 && Reaches(data, pos)
    requires next == Choose(t, Select(data, pos, true), Select(data, pos, false))
    ensures FindRating(t, data, pos) == FindRating(t, next, pos + 1)
  {
  }

  /** Selecting from two blocks of rows selects from each. */
  lemma {:induction false} SelectConcat(a: seq<Bits>, b: seq<Bits>, pos: nat, one: bool)
    ensures Select(a + b, pos, one) == Select(a, pos, one) + Select(b, pos, one)
    decreases |a|
  {
    if a != [] {
      assert (a + b)[1..] == a[1..] + b;
      SelectConcat(a[1..], b, pos, one);
    } else {
      assert a + b == b;
    }
  }

  lemma ExampleReaches(pos: nat)
    requires pos < 5
    ensures Reaches(Day03.Example, pos)
  {
    Day03.ExampleRows();
  }

  const Oxygen1: seq<Bits> := [[1, 1, 1, 1, 0], [1, 0, 1, 1, 0], [1, 0, 1, 1, 1], [1, 0, 1, 0, 1],
                               [1, 1, 1, 0, 0], [1, 0, 0, 0, 0], [1, 1, 0, 0, 1]]
  const Oxygen2: seq<Bits> := [[1, 0, 1, 1, 0], [1, 0, 1, 1, 1], [1, 0, 1, 0, 1], [1, 0, 0, 0, 0]]
  const Oxygen3: seq<Bits> := [[1, 0, 1, 1, 0], [1, 0, 1, 1, 1], [1, 0, 1, 0, 1]]
  const Oxygen4: seq<Bits> := [[1, 0, 1, 1, 0], [1, 0, 1, 1, 1]]
  const Oxygen5: seq<Bits> := [[1, 0, 1, 1, 1]]

  const CO21: seq<Bits> := [[0, 0, 1, 0, 0], [0, 1, 1, 1, 1], [0, 0, 1, 1, 1], [0, 0, 0, 1, 0], [0, 1, 0, 1, 0]]
  const CO22: seq<Bits> := [[0, 1, 1, 1, 1], [0, 1, 0, 1, 0]]
  const CO23: seq<Bits> := [[0, 1, 0, 1, 0]]

  /** The first round splits the example into these seven rows starting
      with 1 and the five rows of `CO21` starting with 0. */
  lemma ExampleOnes()
    ensures Reaches(Day03.Example, 0)
    ensures Select(Day03.Example, 0, true) == Oxygen1
  {
    ExampleReaches(0);
    SelectConcat(Day03.ExampleTop, Day03.ExampleBottom, 0, true);
    assert Select(Day03.ExampleTop, 0, true) == Oxygen1[..4];
    assert Select(Day03.ExampleBottom, 0, true) == Oxygen1[4..];
  }

  lemma ExampleZeros()
    ensures Reaches(Day03.Example, 0)
    ensures Select(Day03.Example, 0, false) == CO21
  {
    ExampleReaches(0);
    SelectConcat(Day03.ExampleTop, Day03.ExampleBottom, 0, false);
    assert Select(Day03.ExampleTop, 0, false) == CO21[..2];
    assert Select(Day03.ExampleBottom, 0, false) == CO21[2..];
  }

  lemma OxygenRound0()
    ensures Reaches(Day03.Example, 0)
    ensures Oxygen1 == Choose(OxygenGenerator, Select(Day03.Example, 0, true), Select(Day03.Example, 0, false))
  {
    ExampleOnes();
    ExampleZeros();
  }

  lemma OxygenRound1()
    ensures Reaches(Oxygen1, 1)
    ensures Oxygen2 == Choose(OxygenGenerator, Select(Oxygen1, 1, true), Select(Oxygen1, 1, false))
  {
    assert forall k :: 0 <= k < |Oxygen1| ==> |Oxygen1[k]| == 5;
  }

  lemma OxygenRound2()
    ensures Reaches(Oxygen2, 2)
    ensures Oxygen3 == Choose(OxygenGenerator, Select(Oxygen2, 2, true), Select(Oxygen2, 2, false))
  {
    assert forall k :: 0 <= k < |Oxygen2| ==> |Oxygen2[k]| == 5;
  }

  lemma OxygenRound3()
    ensures Reaches(Oxygen3, 3)
    ensures Oxygen4 == Choose(OxygenGenerator, Select(Oxygen3, 3, true), Select(Oxygen3, 3, false))
  {
    assert forall k :: 0 <= k < |Oxygen3| ==> |Oxygen3[k]| == 5;
  }

  lemma OxygenRound4()
    ensures Reaches(Oxygen4, 4)
    ensures Oxygen5 == Choose(OxygenGenerator, Select(Oxygen4, 4, true), Select(Oxygen4, 4, false))
  {
    assert forall k :: 0 <= k < |Oxygen4| ==> |Oxygen4[k]| == 5;
  }

  /** The oxygen search on the example, through names for the candidate
      lists so that each round is evaluated on its own. */
  lemma ExampleOxygenOf(d0: seq<Bits>, d1: seq<Bits>, d2: seq<Bits>, d3: seq<Bits>, d4: seq<Bits>, d5: seq<Bits>)
    requires d0 == Day03.Example && d1 == Oxygen1 && d2 == Oxygen2
    requires d3 == Oxygen3 && d4 == Oxygen4 && d5 == Oxygen5
    ensures FindRating(OxygenGenerator, d0, 0) == Found([1, 0, 1, 1, 1])
  {
    OxygenRound0();
    Step(OxygenGenerator, d0, 0, d1);
    OxygenRound1();
    Step(OxygenGenerator, d1, 1, d2);
    OxygenRound2();
    Step(OxygenGenerator, d2, 2, d3);
    OxygenRound3();
    Step(OxygenGenerator, d3, 3, d4);
    OxygenRound4();
    Step(OxygenGenerator, d4, 4, d5);
    SmallInputs(OxygenGenerator, d5[0], 5);
  }

  lemma CO2Round0()
    ensures Reaches(Day03.Example, 0)
    ensures CO21 == Choose(CO2Scrubber, Select(Day03.Example, 0, true), Select(Day03.Example, 0, false))
  {
    ExampleOnes();
    ExampleZeros();
  }

  lemma CO2Round1()
    ensures Reaches(CO21, 1)
    ensures CO22 == Choose(CO2Scrubber, Select(CO21, 1, true), Select(CO21, 1, false))
  {
    assert forall k :: 0 <= k < |CO21| ==> |CO21[k]| == 5;
  }

  lemma CO2Round2()
    ensures Reaches(CO22, 2)
    ensures CO23 == Choose(CO2Scrubber, Select(CO22, 2, true), Select(CO22, 2, false))
  {
    assert forall k :: 0 <= k < |CO22| ==> |CO22[k]| == 5;
  }

  lemma ExampleCO2Of(d0: seq<Bits>, d1: seq<Bits>, d2: seq<Bits>, d3: seq<Bits>)
    requires d0 == Day03.Example && d1 == CO21 && d2 == CO22 && d3 == CO23
    ensures FindRating(CO2Scrubber, d0, 0) == Found([0, 1, 0, 1, 0])
  {
    CO2Round0();
    Step(CO2Scrubber, d0, 0, d1);
    CO2Round1();
    Step(CO2Scrubber, d1, 1, d2);
    CO2Round2();
    Step(CO2Scrubber, d2, 2, d3);
    SmallInputs(CO2Scrubber, d3[0], 3);
  }

  lemma OxygenValue()
    ensures ToU64([1, 0, 1, 1, 1]) == 23
  {
    ToU64IsValue([1, 0, 1, 1, 1]);
  }

  lemma CO2Value()
    ensures ToU64([0, 1, 0, 1, 0]) == 10
  {
    ToU64IsValue([0, 1, 0, 1, 0]);
  }

  /** The answer on rows known to be the example's. */
  lemma ExampleAnswerOf(data: seq<Bits>)
    requires data == Day03.Example
    ensures SolveInner(data) == Some(230)
  {
    ExampleOxygenOf(data, Oxygen1, Oxygen2, Oxygen3, Oxygen4, Oxygen5);
    ExampleCO2Of(data, CO21, CO22, CO23);
    OxygenValue();
    CO2Value();
  }

  /** The example's ratings are 23 and 10. */
  lemma ExampleAnswer()
    ensures SolveInner(Day03.Example) == Some(230)
  {
    ExampleAnswerOf(Day03.Example);
  }
}
