/** Day 2, part 2: the same commands, now steering an aim. "up" and "down"
    change only the aim; "forward x" moves x forward and aim * x deeper. */
module Day02Part2 {
  import Day02

  type Command = Day02.Command

  /** One step of the fold over (aim, depth, pos). */
  function Step(aim: nat, depth: nat, pos: nat, c: Command): (r: (nat, nat, nat))
    requires c.Up? ==> c.amount <= aim
    ensures !c.Forward? ==> r.1 == depth && r.2 == pos
    ensures c.Forward? ==> r.0 == aim && r.1 == depth + aim * c.amount && r.2 == pos + c.amount
  {
    match c
    case Forward(x) => (aim, depth + aim * x, pos + x)
    case Up(x) => (aim - x, depth, pos)
    case Down(x) => (aim + x, depth, pos)
  }

  /** The aim follows exactly the depth of part one, so the same condition
      rules out `usize` underflow of the aim. */
  function Fold(cmds: seq<Command>, aim: nat, depth: nat, pos: nat): (nat, nat, nat)
    requires Day02.NeverAbove(cmds, aim)
    decreases |cmds|
  {
    if cmds == [] then (aim, depth, pos)
    else
      var (a, d, p) := Step(aim, depth, pos, cmds[0]);
      Fold(cmds[1..], a, d, p)
  }

  /** `solve_inner`: depth times horizontal position after all commands. */
  function SolveInner(cmds: seq<Command>): nat
    requires Day02.NeverAbove(cmds, 0)
  {
    var (_, depth, pos) := Fold(cmds, 0, 0, 0);
    depth * pos
  }

  /** Reference definition of the final depth: each forward move of x
      descends x times the aim at that point, and the aim at that point is
      what part one calls the depth after the commands before it. */
  function Descent(cmds: seq<Command>): nat
    requires Day02.NeverAbove(cmds, 0)
    decreases |cmds|
  {
    if cmds == [] then 0
    else
      var init := cmds[..|cmds| - 1];
      var last := cmds[|cmds| - 1];
      PrefixNeverAbove(cmds, |cmds| - 1, 0);
      Descent(init) + (if last.Forward? then last.amount * Day02.Fold(init, 0, 0).0 else 0)
  }

  /** A prefix of commands that never underflow never underflows. */
  lemma {:induction false} PrefixNeverAbove(cmds: seq<Command>, k: nat, aim: nat)
    requires k <= |cmds| && Day02.NeverAbove(cmds, aim)
    ensures Day02.NeverAbove(cmds[..k], aim)
    decreases k
  {
    if k > 0 {
      var c := cmds[0];
      var aim' := if c.Up? then aim - c.amount else if c.Down? then aim + c.amount else aim;
      PrefixNeverAbove(cmds[1..], k - 1, aim');
      assert cmds[..k][1..] == cmds[1..][..k - 1];
    }
  }

  /** Running the fold over a prefix and then one more command. */
  lemma {:induction false} FoldSnoc(cmds: seq<Command>, aim: nat, depth: nat, pos: nat)
    requires cmds != [] && Day02.NeverAbove(cmds, aim)
    ensures Day02.NeverAbove(cmds[..|cmds| - 1], aim)
    ensures var (a, d, p) := Fold(cmds[..|cmds| - 1], aim, depth, pos);
            var last := cmds[|cmds| - 1];
            (last.Up? ==> last.amount <= a) &&
            Fold(cmds, aim, depth, pos) == Step(a, d, p, last)
    decreases |cmds|
  {
    PrefixNeverAbove(cmds, |cmds| - 1, aim);
    if |cmds| > 1 {
      var c := cmds[0];
      var (a, d, p) := Step(aim, depth, pos, c);
      FoldSnoc(cmds[1..], a, d, p);
      assert cmds[1..][..|cmds| - 2] == cmds[..|cmds| - 1][1..];
    }
  }

  /** Part one's fold over a prefix and one more command. */
  lemma {:induction false} Part1FoldSnoc(cmds: seq<Command>, depth: nat, pos: nat)
    requires cmds != [] && Day02.NeverAbove(cmds, depth)
    ensures Day02.NeverAbove(cmds[..|cmds| - 1], depth)
    ensures var (d, p) := Day02.Fold(cmds[..|cmds| - 1], depth, pos);
            var last := cmds[|cmds| - 1];
            (last.Up? ==> last.amount <= d) &&
            Day02.Fold(cmds, depth, pos) == Day02.Step(d, p, last)
    decreases |cmds|
  {
    PrefixNeverAbove(cmds, |cmds| - 1, depth);
    if |cmds| > 1 {
      var c := cmds[0];
      var (d, p) := Day02.Step(depth, pos, c);
      Part1FoldSnoc(cmds[1..], d, p);
      assert cmds[1..][..|cmds| - 2] == cmds[..|cmds| - 1][1..];
    }
  }

  /** From the start, the aim of part two is the depth of part one, the
      position is the same as in part one, and the depth is the descent. */
  lemma {:induction false} FoldMatchesPart1(cmds: seq<Command>)
    requires Day02.NeverAbove(cmds, 0)
    ensures Fold(cmds, 0, 0, 0).0 == Day02.Fold(cmds, 0, 0).0
    ensures Fold(cmds, 0, 0, 0).2 == Day02.Fold(cmds, 0, 0).1
    ensures Fold(cmds, 0, 0, 0).1 == Descent(cmds)
    decreases |cmds|
  {
    if cmds != [] {
      var init, last := cmds[..|cmds| - 1], cmds[|cmds| - 1];
      FoldSnoc(cmds, 0, 0, 0);
      Part1FoldSnoc(cmds, 0, 0);
      FoldMatchesPart1(init);
      var (a, d, p) := Fold(init, 0, 0, 0);
      var (d1, p1) := Day02.Fold(init, 0, 0);
      assert a == d1 && p == p1 && d == Descent(init);
      assert Fold(cmds, 0, 0, 0) == Step(a, d, p, last);
      assert Day02.Fold(cmds, 0, 0) == Day02.Step(d1, p1, last);
      assert Descent(cmds) == d + (if last.Forward? then last.amount * d1 else 0);
      if last.Forward? {
        assert a * last.amount == last.amount * d1;
      }
    }
  }

  /** The answer in terms of part one: the descent times the sum of the
      forward moves. */
  lemma SolveInnerIsProduct(cmds: seq<Command>)
    requires Day02.NeverAbove(cmds, 0)
    ensures SolveInner(cmds) == Descent(cmds) * Day02.SumForward(cmds)
  {
    FoldMatchesPart1(cmds);
    Day02.FoldSums(cmds, 0, 0);
  }

  lemma ExampleAnswer()
    ensures Day02.NeverAbove(Day02.Example, 0)
    ensures SolveInner(Day02.Example) == 900
  {
    Day02.ExampleAnswer();
    assert Fold(Day02.Example, 0, 0, 0) == (10, 60, 15);
  }
}
