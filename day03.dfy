/** Day 3, part 1: read lines of binary digits, keep one signed counter per
    bit position (+1 for a '1', -1 for a '0'), and build gamma from the
    positions whose counter is positive and epsilon from the others. */
module Day03 {
  import opened Common

  /** `make_iterator`, for one line: '1' gives bit 1, '0' gives bit 0, and
      any other character makes the whole line an error. */
  function ParseLine(s: string): (r: Result<seq<nat>>)
    ensures r.Ok? <==> forall i :: 0 <= i < |s| ==> s[i] == '0' || s[i] == '1'
    ensures r.Ok? ==> |r.value| == |s|
    ensures r.Ok? ==> forall i :: 0 <= i < |s| ==> r.value[i] == (if s[i] == '1' then 1 else 0)
  {
    if s == [] then Ok([])
    else if s[0] != '0' && s[0] != '1' then Err
    else match ParseLine(s[1..])
      case Err => Err
      case Ok(rest) => Ok([if s[0] == '1' then 1 else 0] + rest)
  }

  /** Every line parsed, or the failure of the first line that does not parse. */
  function ParseAll(lines: seq<string>): (r: Result<seq<seq<nat>>>)
    ensures r.Err? <==> exists k :: 0 <= k < |lines| && ParseLine(lines[k]).Err?
    ensures r.Ok? ==> |r.value| == |lines|
    ensures r.Ok? ==> forall k :: 0 <= k < |lines| ==> ParseLine(lines[k]) == Ok(r.value[k])
    decreases |lines|
  {
    if lines == [] then Ok([])
    else match ParseAll(lines[..|lines| - 1])
      case Err => Err
      case Ok(rows) =>
        match ParseLine(lines[|lines| - 1])
        case Err => Err
        case Ok(row) => Ok(rows + [row])
  }

  /* ---------------------------------------------------------------------
     Counters
     --------------------------------------------------------------------- */

  /** What one row adds to the counter of position i. */
  function Vote(row: seq<nat>, i: nat): int {
    if i < |row| then (if row[i] == 1 then 1 else if row[i] == 0 then -1 else 0) else 0
  }

  /** The counter of position i after all rows. */
  function Counter(rows: seq<seq<nat>>, i: nat): int
    decreases |rows|
  {
    if rows == [] then 0 else Vote(rows[0], i) + Counter(rows[1..], i)
  }

  /** The number of counters: the length of the longest row. */
  function Width(rows: seq<seq<nat>>): (w: nat)
    ensures forall k :: 0 <= k < |rows| ==> |rows[k]| <= w
    ensures rows != [] ==> exists k :: 0 <= k < |rows| && |rows[k]| == w
    ensures rows == [] ==> w == 0
    decreases |rows|
  {
    if rows == [] then 0
    else
      var w := Width(rows[..|rows| - 1]);
      var l := |rows[|rows| - 1]|;
      if w < l then l else w
  }

  function Counters(rows: seq<seq<nat>>): (c: seq<int>)
    ensures |c| == Width(rows)
  {
    seq(Width(rows), i requires 0 <= i < Width(rows) => Counter(rows, i))
  }

  /** How many rows have a 1 at position i, and how many a 0. */
  function Ones(rows: seq<seq<nat>>, i: nat): nat {
    if rows == [] then 0 else (if i < |rows[0]| && rows[0][i] == 1 then 1 else 0) + Ones(rows[1..], i)
  }

  function Noughts(rows: seq<seq<nat>>, i: nat): nat {
    if rows == [] then 0 else (if i < |rows[0]| && rows[0][i] == 0 then 1 else 0) + Noughts(rows[1..], i)
  }

  /** A counter is the number of ones minus the number of zeros in its
      position; rows too short to reach it add nothing. */
  lemma {:induction false} CounterCounts(rows: seq<seq<nat>>, i: nat)
    ensures Counter(rows, i) == Ones(rows, i) - Noughts(rows, i)
    decreases |rows|
  {
    if rows != [] {
      CounterCounts(rows[1..], i);
    }
  }

  lemma {:induction false} OnesSnoc(rows: seq<seq<nat>>, row: seq<nat>, i: nat)
    ensures Ones(rows + [row], i) == Ones(rows, i) + (if i < |row| && row[i] == 1 then 1 else 0)
    ensures Noughts(rows + [row], i) == Noughts(rows, i) + (if i < |row| && row[i] == 0 then 1 else 0)
    decreases |rows|
  {
    if rows != [] {
      assert (rows + [row])[1..] == rows[1..] + [row];
      OnesSnoc(rows[1..], row, i);
    }
  }

  /* ---------------------------------------------------------------------
     Gamma and epsilon
     --------------------------------------------------------------------- */

  function Pow2(n: nat): (p: nat)
    ensures p >= 1
  {
    if n == 0 then 1 else 2 * Pow2(n - 1)
  }

  /** The number whose binary digits, most significant first, are `bits`. */
  function Value(bits: seq<nat>): nat {
    if bits == [] then 0 else bits[0] * Pow2(|bits| - 1) + Value(bits[1..])
  }

  /** Gamma has a 1 exactly where the counter is positive; epsilon has a 1
      everywhere else, a zero counter included. */
  function GammaBits(c: seq<int>): (g: seq<nat>)
    ensures |g| == |c|
  {
    seq(|c|, j requires 0 <= j < |c| => if c[j] > 0 then 1 else 0)
  }

  function EpsilonBits(c: seq<int>): (e: seq<nat>)
    ensures |e| == |c|
  {
    seq(|c|, j requires 0 <= j < |c| => if c[j] > 0 then 0 else 1)
  }

  /** The answer `solve_inner` computes from a set of rows. */
  function Answer(rows: seq<seq<nat>>): nat {
    var c := Counters(rows);
    Value(GammaBits(c)) * Value(EpsilonBits(c))
  }

  /** Every position has its bit in exactly one of gamma and epsilon. */
  lemma Complementary(c: seq<int>)
    ensures forall j :: 0 <= j < |c| ==> GammaBits(c)[j] + EpsilonBits(c)[j] == 1
    ensures forall j :: 0 <= j < |c| ==> GammaBits(c)[j] * EpsilonBits(c)[j] == 0
  {
  }

  /** Bits that are complementary at every position add up to all ones. */
  lemma {:induction false} ComplementSum(a: seq<nat>, b: seq<nat>)
    requires |a| == |b|
    requires forall j :: 0 <= j < |a| ==> a[j] + b[j] == 1
    ensures Value(a) + Value(b) == Pow2(|a|) - 1
    decreases |a|
  {
    if a != [] {
      ComplementSum(a[1..], b[1..]);
      assert a[0] + b[0] == 1;
      assert (a[0] + b[0]) * Pow2(|a| - 1) == a[0] * Pow2(|a| - 1) + b[0] * Pow2(|a| - 1);
    }
  }

  /** gamma + epsilon == 2^L - 1 for L counters. */
  lemma GammaPlusEpsilon(c: seq<int>)
    ensures Value(GammaBits(c)) + Value(EpsilonBits(c)) == Pow2(|c|) - 1
  {
    Complementary(c);
    ComplementSum(GammaBits(c), EpsilonBits(c));
  }

  /** A position's bit weighs 2^(L - 1 - j): appending a bit doubles the
      value of the bits before it. */
  lemma {:induction false} ValueSnoc(bits: seq<nat>, b: nat)
    ensures Value(bits + [b]) == 2 * Value(bits) + b
    decreases |bits|
  {
    if bits != [] {
      assert (bits + [b])[1..] == bits[1..] + [b];
      ValueSnoc(bits[1..], b);
    }
  }

  /* ---------------------------------------------------------------------
     solve_inner
     --------------------------------------------------------------------- */

  /** Positions beyond every row have a zero counter. */
  lemma {:induction false} CounterBeyond(rows: seq<seq<nat>>, i: nat)
    requires i >= Width(rows)
    ensures Counter(rows, i) == 0
    decreases |rows|
  {
    if rows != [] {
      CounterBeyond(rows[..|rows| - 1], i);
      CounterSnoc(rows[..|rows| - 1], rows[|rows| - 1], i);
      assert rows[..|rows| - 1] + [rows[|rows| - 1]] == rows;
    }
  }

  lemma {:induction false} CounterSnoc(rows: seq<seq<nat>>, row: seq<nat>, i: nat)
    ensures Counter(rows + [row], i) == Counter(rows, i) + Vote(row, i)
    decreases |rows|
  {
    if rows != [] {
      assert (rows + [row])[1..] == rows[1..] + [row];
      CounterSnoc(rows[1..], row, i);
    } else {
      assert [row][1..] == [];
    }
  }

  lemma WidthSnoc(rows: seq<seq<nat>>, row: seq<nat>)
    ensures Width(rows + [row]) == if Width(rows) < |row| then |row| else Width(rows)
  {
    assert (rows + [row])[..|rows|] == rows;
  }

  /** `solve_inner`: the first line that does not parse is the error;
      otherwise the counters grow to the longest line and the answer is
      gamma times epsilon. */
  method SolveInner(lines: seq<string>) returns (r: Result<nat>)
    ensures ParseAll(lines).Err? ==> r.Err?
    ensures ParseAll(lines).Ok? ==> r == Ok(Answer(ParseAll(lines).value))
  {
    var bc: seq<int> := [];
    ghost var rows: seq<seq<nat>> := [];
    var k := 0;
    while k < |lines|
      invariant 0 <= k <= |lines|
      invariant ParseAll(lines[..k]) == Ok(rows)
      invariant bc == Counters(rows)
    {
      var item := ParseLine(lines[k]);
      if item.Err? {
        return Err;
      }
      var row := item.value;
      bc := CountRow(bc, row, rows);
      ParseAllStep(lines, k, rows, row);
      rows := rows + [row];
      k := k + 1;
    }
    assert lines[..k] == lines;
    var gamma, epsilon := GammaEpsilon(bc);
    r := Ok(Mul(gamma, epsilon));
  }

  /** The body of the first loop of `solve_inner`: the counters grow with
      zeros to the row's length, and then the row is tallied. */
  method CountRow(bc: seq<int>, row: seq<nat>, ghost rows: seq<seq<nat>>) returns (bc': seq<int>)
    requires bc == Counters(rows)
    ensures bc' == Counters(rows + [row])
  {
    bc' := bc;
    if |bc'| < |row| {
      bc' := bc' + seq(|row| - |bc'|, _ => 0);
    }
    bc' := Tally(bc', row);
    CountersStep(rows, row, bc, bc');
  }

  /** The inner loop of `solve_inner`: each bit of a row moves the counter
      of its position up (for a 1) or down (for a 0). */
  method Tally(bc: seq<int>, row: seq<nat>) returns (bc': seq<int>)
    requires |row| <= |bc|
    ensures |bc'| == |bc|
    ensures forall j :: 0 <= j < |bc| ==> bc'[j] == bc[j] + Vote(row, j)
  {
    bc' := bc;
    var i := 0;
    while i < |row|
      invariant 0 <= i <= |row| && |bc'| == |bc|
      invariant forall j :: 0 <= j < |bc| ==> bc'[j] == bc[j] + (if j < i then Vote(row, j) else 0)
    {
      if row[i] == 1 {
        bc' := bc'[i := bc'[i] + 1];
      } else if row[i] == 0 {
        bc' := bc'[i := bc'[i] - 1];
      }
      i := i + 1;
    }
  }

  /** The second loop of `solve_inner`: the counters read from the last
      (the least significant bit) to the first, the i-th from the end
      adding 1 << i to gamma when positive and to epsilon otherwise. */
  method GammaEpsilon(bc: seq<int>) returns (gamma: nat, epsilon: nat)
    ensures gamma == Value(GammaBits(bc))
    ensures epsilon == Value(EpsilonBits(bc))
  {
    gamma := 0;
    epsilon := 0;
    var i := 0;
    while i < |bc|
      invariant 0 <= i <= |bc|
      invariant gamma == Value(GammaBits(bc)[|bc| - i..])
      invariant epsilon == Value(EpsilonBits(bc)[|bc| - i..])
    {
      var j := |bc| - 1 - i;
      var (dg, de) := if bc[j] > 0 then (1, 0) else (0, 1);
      assert GammaBits(bc)[j..] == [dg] + GammaBits(bc)[|bc| - i..];
      assert EpsilonBits(bc)[j..] == [de] + EpsilonBits(bc)[|bc| - i..];
      gamma := gamma + dg * Pow2(i);
      epsilon := epsilon + de * Pow2(i);
      i := i + 1;
    }
    assert GammaBits(bc)[0..] == GammaBits(bc);
    assert EpsilonBits(bc)[0..] == EpsilonBits(bc);
  }

  /** One more line that parses extends the parsed prefix by its row. */
  lemma ParseAllStep(lines: seq<string>, k: nat, rows: seq<seq<nat>>, row: seq<nat>)
    requires k < |lines| && ParseAll(lines[..k]) == Ok(rows) && ParseLine(lines[k]) == Ok(row)
    ensures ParseAll(lines[..k + 1]) == Ok(rows + [row])
  {
    assert lines[..k + 1][..k] == lines[..k];
  }

  /** The counter of one position after one more row: the old counter (zero
      beyond the old width) plus the row's vote. */
  lemma CounterStepAt(rows: seq<seq<nat>>, row: seq<nat>, old_j: int, j: nat)
    requires j < Width(rows) ==> old_j == Counter(rows, j)
    requires j >= Width(rows) ==> old_j == 0
    ensures old_j + Vote(row, j) == Counter(rows + [row], j)
  {
    CounterSnoc(rows, row, j);
    if j >= Width(rows) {
      CounterBeyond(rows, j);
    }
  }

  /** Padding the counters with zeros up to the row's length and adding the
      row's votes gives the counters of the rows with the new row. */
  lemma CountersStep(rows: seq<seq<nat>>, row: seq<nat>, before: seq<int>, after: seq<int>)
    requires before == Counters(rows)
    requires |after| == if |before| < |row| then |row| else |before|
    requires forall j :: 0 <= j < |after| ==> after[j] == (if j < |before| then before[j] else 0) + Vote(row, j)
    ensures after == Counters(rows + [row])
  {
    WidthSnoc(rows, row);
    forall j | 0 <= j < |after|
      ensures after[j] == Counter(rows + [row], j)
    {
      CountersStepAt(rows, row, before, after, j);
    }
  }

  /** One position of `CountersStep`. */
  lemma CountersStepAt(rows: seq<seq<nat>>, row: seq<nat>, before: seq<int>, after: seq<int>, j: nat)
    requires before == Counters(rows)
    requires j < |after|
    requires after[j] == (if j < |before| then before[j] else 0) + Vote(row, j)
    ensures after[j] == Counter(rows + [row], j)
  {
    CounterSnoc(rows, row, j);
    if j >= |before| {
      CounterBeyond(rows, j);
    }
  }

  /** No lines: no counters, and gamma = epsilon = 0. */
  lemma EmptyAnswer()
    ensures Answer([]) == 0
  {
  }

  lemma ExampleParse()
    ensures ParseLine("010101") == Ok([0, 1, 0, 1, 0, 1])
    ensures ParseLine("101") == Ok([1, 0, 1])
    ensures ParseLine("012").Err?
  {
    assert "012"[2] == '2';
    var a := ParseLine("010101").value;
    assert a == [0, 1, 0, 1, 0, 1] by {
      assert "010101"[0] == '0' && "010101"[1] == '1';
    }
    var b := ParseLine("101").value;
    assert b == [1, 0, 1] by {
      assert "101"[0] == '1' && "101"[1] == '0';
    }
  }

  /** The puzzle's example, in two halves of six rows each so that the
      verifier evaluates the counters half by half. */
  const ExampleTop: seq<seq<nat>> := [
    [0, 0, 1, 0, 0], [1, 1, 1, 1, 0], [1, 0, 1, 1, 0],
    [1, 0, 1, 1, 1], [1, 0, 1, 0, 1], [0, 1, 1, 1, 1]]
  const ExampleBottom: seq<seq<nat>> := [
    [0, 0, 1, 1, 1], [1, 1, 1, 0, 0], [1, 0, 0, 0, 0],
    [1, 1, 0, 0, 1], [0, 0, 0, 1, 0], [0, 1, 0, 1, 0]]
  const Example: seq<seq<nat>> := ExampleTop + ExampleBottom

  /** Every row of the example has five bits. */
  lemma ExampleRows()
    ensures |Example| == 12
    ensures forall k :: 0 <= k < |Example| ==> |Example[k]| == 5
  {
    assert forall k :: 0 <= k < |ExampleTop| ==> |ExampleTop[k]| == 5;
    assert forall k :: 0 <= k < |ExampleBottom| ==> |ExampleBottom[k]| == 5;
  }

  lemma ExampleWidth()
    ensures Width(Example) == 5
  {
    ExampleRows();
  }

  /** The counters of two blocks of rows add up. */
  lemma {:induction false} CounterConcat(a: seq<seq<nat>>, b: seq<seq<nat>>, i: nat)
    ensures Counter(a + b, i) == Counter(a, i) + Counter(b, i)
    decreases |a|
  {
    if a != [] {
      assert (a + b)[1..] == a[1..] + b;
      CounterConcat(a[1..], b, i);
    } else {
      assert a + b == b;
    }
  }

  lemma ExampleTopColumns()
    ensures Counter(ExampleTop, 0) == 2 && Counter(ExampleTop, 1) == -2 && Counter(ExampleTop, 2) == 6
    ensures Counter(ExampleTop, 3) == 2 && Counter(ExampleTop, 4) == 0
  {
  }

  lemma ExampleBottomColumns()
    ensures Counter(ExampleBottom, 0) == 0 && Counter(ExampleBottom, 1) == 0 && Counter(ExampleBottom, 2) == -2
    ensures Counter(ExampleBottom, 3) == 0 && Counter(ExampleBottom, 4) == -2
  {
  }

  lemma ExampleColumns(i: nat)
    requires i < 5
    ensures Counter(Example, i) == [2, -2, 4, 2, -2][i]
  {
    CounterConcat(ExampleTop, ExampleBottom, i);
    ExampleTopColumns();
    ExampleBottomColumns();
  }

  /** The example's counters, reached through a name for the rows so that
      the verifier evaluates one column at a time. */
  lemma ExampleCountersOf(rows: seq<seq<nat>>)
    requires rows == Example
    ensures Counters(rows) == [2, -2, 4, 2, -2]
  {
    ExampleWidth();
    forall i | 0 <= i < 5
      ensures Counter(rows, i) == [2, -2, 4, 2, -2][i]
    {
      ExampleColumns(i);
    }
  }

  lemma ExampleAnswerOf(rows: seq<seq<nat>>)
    requires rows == Example
    ensures Answer(rows) == 198
  {
    ExampleCountersOf(rows);
    ExampleGammaEpsilon(Counters(rows));
  }

  lemma ExampleGammaEpsilon(c: seq<int>)
    requires c == [2, -2, 4, 2, -2]
    ensures Value(GammaBits(c)) == 22 && Value(EpsilonBits(c)) == 9
  {
    var g, e := GammaBits(c), EpsilonBits(c);
    assert g == [1, 0, 1, 1, 0] by {
      assert g[0] == 1 && g[1] == 0 && g[2] == 1 && g[3] == 1 && g[4] == 0;
    }
    assert e == [0, 1, 0, 0, 1] by {
      assert e[0] == 0 && e[1] == 1 && e[2] == 0 && e[3] == 0 && e[4] == 1;
    }
    assert Value([1, 0, 1, 1, 0]) == 22;
    assert Value([0, 1, 0, 0, 1]) == 9;
  }

  /** The example's rows give gamma 22, epsilon 9 and the answer 198. */
  lemma ExampleAnswer()
    ensures Answer(Example) == 198
  {
    ExampleAnswerOf(Example);
  }
}
