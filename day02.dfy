/** Day 2, part 1: parse submarine commands ("forward 5", "down 3", "up 1")
    and fold them over a (depth, horizontal position) pair. */
module Day02 {
  import opened Common

  /** `Command`: a direction and a magnitude. */
  datatype Command = Forward(amount: nat) | Up(amount: nat) | Down(amount: nat)

  /** The keyword that names a command's direction, in lower case. */
  function Keyword(c: Command): string {
    match c
    case Forward(_) => "forward"
    case Up(_) => "up"
    case Down(_) => "down"
  }

  /** `set_amount`: the command is replaced by one of the same direction
      carrying the new magnitude. */
  function SetAmount(c: Command, v: nat): (r: Command)
    ensures r.Forward? == c.Forward? && r.Up? == c.Up? && r.Down? == c.Down?
    ensures r.amount == v
    ensures Keyword(r) == Keyword(c)
  {
    c.(amount := v)
  }

  /** The direction of a lower-cased keyword, with a placeholder magnitude. */
  function FromKeyword(k: string): Result<Command> {
    if k == "forward" then Ok(Forward(0))
    else if k == "up" then Ok(Up(0))
    else if k == "down" then Ok(Down(0))
    else Err
  }

  /** `Command::from_str`: the text split at every single space must give
      exactly two pieces; the first, lower-cased, is a keyword and the
      second parses as a `usize`. */
  function Parse(s: string): (r: Result<Command>)
    ensures r.Ok? ==> r.value.amount <= USizeMax
  {
    var pieces := Split(s, ' ');
    match FromKeyword(Lower(pieces[0]))
    case Err => Err
    case Ok(cmd) =>
      if |pieces| < 2 then Err
      else match ParseUnsigned(pieces[1], USizeMax)
        case None => Err
        case Some(amount) =>
          if |pieces| > 2 then Err
          else Ok(SetAmount(cmd, amount))
  }

  lemma KeywordLower(c: Command)
    ensures Lower(Keyword(c)) == Keyword(c)
    ensures ' ' !in Keyword(c)
  {
  }

  /** Any spelling of the keyword whose lower case is the keyword, a single
      space and an in-range magnitude written out in decimal parse back to
      the command. */
  lemma ParseCommand(k: string, c: Command)
    requires Lower(k) == Keyword(c) && c.amount <= USizeMax
    ensures Parse(k + " " + ShowNat(c.amount)) == Ok(c)
  {
    var t := ShowNat(c.amount);
    ShowNatDigits(c.amount);
    assert ' ' !in k by {
      forall i | 0 <= i < |k|
        ensures k[i] != ' '
      {
        assert LowerChar(k[i]) == Keyword(c)[i];
      }
    }
    assert ' ' !in t by {
      forall i | 0 <= i < |t|
        ensures t[i] != ' '
      {
        assert IsDigit(t[i]);
      }
    }
    SplitJoin([k, t], ' ');
    assert Join([k, t], ' ') == k + " " + t;
    ParseShowNat(c.amount, USizeMax);
  }

  /** Round trip: writing a command in its canonical form and parsing it back
      gives the command. */
  lemma ParseShow(c: Command)
    requires c.amount <= USizeMax
    ensures Parse(Keyword(c) + " " + ShowNat(c.amount)) == Ok(c)
  {
    KeywordLower(c);
    ParseCommand(Keyword(c), c);
  }

  /** Soundness: whatever parses is a keyword (in any letter case), one
      space and a magnitude that reads back as the command's amount. */
  lemma ParseSound(s: string)
    requires Parse(s).Ok?
    ensures exists k, t :: s == k + " " + t && Lower(k) == Keyword(Parse(s).value)
                           && ParseUnsigned(t, USizeMax) == Some(Parse(s).value.amount)
  {
    var pieces := Split(s, ' ');
    JoinSplit(s, ' ');
    assert pieces == [pieces[0], pieces[1]];
    assert Join(pieces, ' ') == pieces[0] + " " + pieces[1];
  }

  /** A space before or after the command leaves an empty piece, which is
      rejected. */
  lemma RejectsOuterSpaces(s: string)
    ensures Parse(" " + s).Err?
    ensures Parse(s + " ").Err?
  {
    SplitLeadingSeparator(s, ' ');
    assert Lower([]) == [];
    SplitTrailingSeparator(s, ' ');
  }

  /** A keyword with no magnitude, and an unknown keyword, are rejected. */
  lemma RejectsMissingOrUnknown(k: string, t: string)
    requires ' ' !in k
    ensures Parse(k).Err?
    ensures FromKeyword(Lower(k)).Err? ==> Parse(k + " " + t).Err?
  {
    SplitNoSeparator(k, ' ');
    SplitAfterPiece(k, t, ' ');
    assert k + " " + t == k + [' '] + t;
  }

  /** The parser's test cases: keywords in any letter case. */
  lemma ExampleForward()
    ensures Parse("forward 10") == Ok(Forward(10))
  {
    var c := Forward(10);
    assert "forward 10" == "forward" + " " + ShowNat(c.amount);
    ParseCommand("forward", c);
  }

  lemma ExampleUp()
    ensures Parse("UP 20") == Ok(Up(20))
  {
    var c := Up(20);
    assert "UP 20" == "UP" + " " + ShowNat(c.amount);
    ParseCommand("UP", c);
  }

  lemma ExampleDown()
    ensures Parse("Down 30") == Ok(Down(30))
  {
    var c := Down(30);
    assert "Down 30" == "Down" + " " + ShowNat(c.amount);
    ParseCommand("Down", c);
  }

  /** The parser's test cases that fail: spaces around the command, a
      negative magnitude and an unknown keyword. */
  lemma ExampleSpaces()
    ensures Parse("forward 0 ").Err?
    ensures Parse(" forward 0").Err?
  {
    RejectsOuterSpaces("forward 0");
    assert "forward 0 " == "forward 0" + " ";
    assert " forward 0" == " " + "forward 0";
  }

  lemma ExampleNegative()
    ensures Parse("forward -1").Err?
  {
    SplitAfterPiece("forward", "-1", ' ');
    SplitNoSeparator("-1", ' ');
    assert "forward -1" == "forward" + [' '] + "-1";
    ParseUnsignedRejects("1", USizeMax);
    assert "-1" == "-" + "1";
  }

  lemma ExampleUnknown()
    ensures Parse("hoge 0").Err?
  {
    RejectsMissingOrUnknown("hoge", "0");
    assert "hoge 0" == "hoge" + " " + "0";
  }

  /* ---------------------------------------------------------------------
     Navigation
     --------------------------------------------------------------------- */

  /** The depth never goes below zero: `usize` subtraction in the fold
      would underflow on an "up" larger than the current depth. */
  predicate NeverAbove(cmds: seq<Command>, depth: nat)
    decreases |cmds|
  {
    if cmds == [] then true
    else match cmds[0]
      case Up(x) => x <= depth && NeverAbove(cmds[1..], depth - x)
      case Down(x) => NeverAbove(cmds[1..], depth + x)
      case Forward(_) => NeverAbove(cmds[1..], depth)
  }

  /** One step of the fold over (depth, pos). */
  function Step(depth: nat, pos: nat, c: Command): (r: (nat, nat))
    requires c.Up? ==> c.amount <= depth
    ensures c.Forward? ==> r.0 == depth
    ensures !c.Forward? ==> r.1 == pos
  {
    match c
    case Forward(x) => (depth, pos + x)
    case Up(x) => (depth - x, pos)
    case Down(x) => (depth + x, pos)
  }

  function Fold(cmds: seq<Command>, depth: nat, pos: nat): (nat, nat)
    requires NeverAbove(cmds, depth)
    decreases |cmds|
  {
    if cmds == [] then (depth, pos)
    else
      var (d, p) := Step(depth, pos, cmds[0]);
      Fold(cmds[1..], d, p)
  }

  /** `solve_inner`: depth times horizontal position after all commands. */
  function SolveInner(cmds: seq<Command>): nat
    requires NeverAbove(cmds, 0)
  {
    var (depth, pos) := Fold(cmds, 0, 0);
    depth * pos
  }

  function SumForward(cmds: seq<Command>): nat {
    if cmds == [] then 0 else (if cmds[0].Forward? then cmds[0].amount else 0) + SumForward(cmds[1..])
  }

  function SumDown(cmds: seq<Command>): nat {
    if cmds == [] then 0 else (if cmds[0].Down? then cmds[0].amount else 0) + SumDown(cmds[1..])
  }

  function SumUp(cmds: seq<Command>): nat {
    if cmds == [] then 0 else (if cmds[0].Up? then cmds[0].amount else 0) + SumUp(cmds[1..])
  }

  /** The fold adds up the forward moves into the position and the down
      minus the up moves into the depth. */
  lemma {:induction false} FoldSums(cmds: seq<Command>, depth: nat, pos: nat)
    requires NeverAbove(cmds, depth)
    ensures Fold(cmds, depth, pos).1 == pos + SumForward(cmds)
    ensures Fold(cmds, depth, pos).0 == depth + SumDown(cmds) - SumUp(cmds)
    decreases |cmds|
  {
    if cmds != [] {
      var (d, p) := Step(depth, pos, cmds[0]);
      FoldSums(cmds[1..], d, p);
    }
  }

  /** The final depth and position. */
  lemma SolveInnerIsProduct(cmds: seq<Command>)
    requires NeverAbove(cmds, 0)
    ensures SumUp(cmds) <= SumDown(cmds)
    ensures SolveInner(cmds) == (SumDown(cmds) - SumUp(cmds)) * SumForward(cmds)
  {
    FoldSums(cmds, 0, 0);
  }

  /** The sums over a prefix followed by one more command. */
  lemma {:induction false} SumsSnoc(cmds: seq<Command>, c: Command)
    ensures SumUp(cmds + [c]) == SumUp(cmds) + (if c.Up? then c.amount else 0)
    ensures SumDown(cmds + [c]) == SumDown(cmds) + (if c.Down? then c.amount else 0)
    ensures SumForward(cmds + [c]) == SumForward(cmds) + (if c.Forward? then c.amount else 0)
    decreases |cmds|
  {
    if cmds != [] {
      assert (cmds + [c])[1..] == cmds[1..] + [c];
      SumsSnoc(cmds[1..], c);
    }
  }

  /** The fold never underflows exactly when no prefix of the commands goes
      up by more than the starting depth plus its downs. */
  lemma {:induction false} NeverAboveIff(cmds: seq<Command>, depth: nat)
    ensures NeverAbove(cmds, depth) <==>
            forall k :: 0 <= k <= |cmds| ==> SumUp(cmds[..k]) <= depth + SumDown(cmds[..k])
    decreases |cmds|
  {
    if cmds != [] {
      var c, rest := cmds[0], cmds[1..];
      var depth' := if c.Up? then depth - c.amount else if c.Down? then depth + c.amount else depth;
      forall k | 1 <= k <= |cmds|
        ensures cmds[..k] == [c] + rest[..k - 1]
      {
      }
      assert cmds[..0] == [];
      if c.Up? && c.amount > depth {
        assert cmds[..1] == [c];
      } else {
        NeverAboveIff(rest, depth');
        assert NeverAbove(cmds, depth) == NeverAbove(rest, depth');
        if forall k :: 0 <= k <= |rest| ==> SumUp(rest[..k]) <= depth' + SumDown(rest[..k]) {
          forall k | 0 <= k <= |cmds|
            ensures SumUp(cmds[..k]) <= depth + SumDown(cmds[..k])
          {
            if k >= 1 {
              assert cmds[..k] == [c] + rest[..k - 1];
              assert ([c] + rest[..k - 1])[1..] == rest[..k - 1];
            }
          }
        } else {
          var k :| 0 <= k <= |rest| && SumUp(rest[..k]) > depth' + SumDown(rest[..k]);
          assert cmds[..k + 1] == [c] + rest[..k];
          assert ([c] + rest[..k])[1..] == rest[..k];
        }
      }
    }
  }

  /** The commands of the puzzle's example. */
  const Example: seq<Command> := [Forward(5), Down(5), Forward(8), Up(3), Down(8), Forward(2)]

  lemma ExampleAnswer()
    ensures NeverAbove(Example, 0)
    ensures SolveInner(Example) == 150
  {
    SolveInnerIsProduct(Example);
  }
}
