/** Day 4, the game as the program runs it: `BingoGame` owns the draws and a
    list of `Board` objects, and `play` / `play_part2` open the draws on the
    boards in place. Each is proved to give what the value model of module
    `Day04` gives. */
module Day04Game {
  import opened Common
  import opened Day04
  import opened Day04Board
  import opened Day04Parse

  /** Every board is well formed, and its arrays are among `fp`. */
  ghost predicate AllValid(bs: seq<Board>, fp: set<object>) {
    forall k :: 0 <= k < |bs| ==> bs[k].Valid() && bs[k].Repr <= fp
  }

  /** No two boards share an array, so opening a number on one board leaves
      every other board as it was. */
  ghost predicate Separate(bs: seq<Board>) {
    forall j, k :: Apart(bs, j, k)
  }

  /** Boards `j` and `k`, when they are two different boards, share no
      array. */
  ghost predicate Apart(bs: seq<Board>, j: int, k: int) {
    0 <= j < |bs| && 0 <= k < |bs| && j != k ==> bs[j].Repr !! bs[k].Repr
  }

  /** The boards as values. */
  ghost function Views(bs: seq<Board>, fp: set<object>): (r: seq<Card>)
    requires AllValid(bs, fp)
    reads fp
    ensures |r| == |bs| && AllShaped(r)
    ensures forall k :: 0 <= k < |bs| ==> r[k] == bs[k].View()
  {
    seq(|bs|, k requires 0 <= k < |bs| && bs[k].Valid() reads fp => bs[k].View())
  }

  /** Board `j` wins draw `n` of `play` from boards `cur`: the boards
      before it opened `n` without winning, `after` is the boards once it
      has opened `n` too, and it has won. */
  ghost predicate WinsRound(cur: seq<Card>, n: nat, j: nat, after: seq<Card>) {
    && AllShaped(cur) && j < |cur| && PlayRound(cur, n, j).Playing?
    && var p := PlayRound(cur, n, j).boards;
       after == p[j := Day04.Open(p[j], n)] && Winning(after[j])
  }

  /** `cards` stand as every board of `play_part2` stopped after the draw at
      which the last board wins, if one does. */
  ghost predicate StoppedAtLast(bs: seq<Card>, nums: seq<nat>, cards: seq<Card>)
    requires AllShaped(bs)
  {
    forall d: nat, k: nat :: LastToWin(bs, nums, d, k) ==> cards == Stopped(bs, nums, d + 1)
  }

  /** `BingoGame`: the drawn numbers and the boards. */
  class BingoGame {
    var nums: seq<nat>
    var boards: seq<Board>
    ghost var Repr: set<object>

    ghost predicate Valid()
      reads this
    {
      this !in Repr && AllValid(boards, Repr) && Separate(boards)
    }

    /** The boards as values. */
    ghost function Cards(): (r: seq<Card>)
      requires Valid()
      reads this, Repr
      ensures |r| == |boards| && AllShaped(r)
    {
      Views(boards, Repr)
    }

    /** A game of the given draws and boards; `repr` holds the boards'
        arrays. */
    constructor (nums: seq<nat>, boards: seq<Board>, ghost repr: set<object>)
      requires AllValid(boards, repr) && Separate(boards)
      ensures Valid() && this.nums == nums && this.boards == boards && Repr == repr
    {
      this.nums, this.boards, Repr := nums, boards, repr;
    }

    /** `BingoGame::from_str`: the first line, which must be there, holds
        the draws; after it, non-empty lines gather in `buf`, each followed
        by a line feed, and an empty line or the end of the input reads the
        gathered block, if any, as a board; the first block that is not a
        board fails the game. */
    static method FromStr(s: string) returns (r: Result<BingoGame>)
      ensures r.Ok? <==> ParseGame(s).Ok?
      ensures r.Ok? ==> fresh(r.value) && fresh(r.value.Repr) && r.value.Valid()
      ensures r.Ok? ==> r.value.nums == ParseGame(s).value.0 && r.value.Cards() == ParseGame(s).value.1
    {
      var ls := Lines(s);
      if ls == [] {
        return Err;
      }
      var gen := ParseNumbers(ls[0]);
      if gen.Err? {
        return Err;
      }
      var boards, repr := ReadBoards(ls[1..]);
      if boards.Err? {
        return Err;
      }
      BuiltCards(boards.value, repr, Blocks(ls[1..], []));
      var game := new BingoGame(gen.value, boards.value, repr);
      r := Ok(game);
    }

    /** The loop of `BingoGame::from_str` over the lines after the first,
        and the block left in `buf` at the end. */
    static method ReadBoards(ls: seq<string>) returns (r: Result<seq<Board>>, ghost repr: set<object>)
      ensures r.Ok? <==> ParseCards(Blocks(ls, [])).Ok?
      ensures r.Ok? ==> fresh(repr) && Built(r.value, repr, Blocks(ls, []))
    {
      var boards: seq<Board> := [];
      repr := {};
      ghost var done: seq<string> := [];
      var buf: string := [];
      var k := 0;
      while k < |ls|
        invariant Gathered(ls, k, buf, done)
        invariant Built(boards, repr, done) && fresh(repr)
      {
        var line := ls[k];
        if line == [] {
          if buf == [] {
            GatherBlank(ls, k, done);
          } else {
            GatherClose(ls, k, buf, done);
            var more;
            more, repr := Flush(buf, boards, repr, done);
            if more.Err? {
              BlockFails(done, Blocks(ls[k + 1..], []), buf);
              return Err, repr;
            }
            boards, done := more.value, done + [buf];
          }
          buf := [];
        } else {
          GatherLine(ls, k, buf, done);
          buf := buf + line + "\n";
        }
        k := k + 1;
      }
      GatherEnd(ls, buf, done);
      if buf != [] {
        var more;
        more, repr := Flush(buf, boards, repr, done);
        if more.Err? {
          BlockFails(done, [], buf);
          return Err, repr;
        }
        boards, done := more.value, done + [buf];
      } else {
        assert done + [] == done;
      }
      BuiltCards(boards, repr, done);
      return Ok(boards), repr;
    }

    /** `boards.push(buf.parse::<Board>()?)`: one more board, read from the
        block in `buf`. */
    static method Flush(buf: string, boards: seq<Board>, ghost repr: set<object>, ghost done: seq<string>)
      returns (r: Result<seq<Board>>, ghost repr': set<object>)
      requires Built(boards, repr, done)
      ensures r.Ok? <==> ParseCard(buf).Ok?
      ensures r.Ok? ==> fresh(repr' - repr) && Built(r.value, repr', done + [buf])
    {
      var b := Board.FromStr(buf);
      if b.Err? {
        return Err, repr;
      }
      Adjoin(boards, repr, done, b.value, buf);
      return Ok(boards + [b.value]), repr + b.value.Repr;
    }

    /** After draw `i` of `play`, starting from boards `bs`, no board has
        won and the boards stand as `PlayRounds` says. */
    ghost predicate PlaysAt(bs: seq<Card>, i: nat)
      reads this, Repr
    {
      Valid() && AllShaped(bs) && i <= |nums| && PlayRounds(bs, nums, i) == Playing(Cards())
    }

    /** Midway through draw `n` of `play`: the first `j` boards of `cur`
        have opened it and none has won. */
    ghost predicate PlayingAt(cur: seq<Card>, n: nat, j: nat)
      reads this, Repr
    {
      Valid() && AllShaped(cur) && j <= |cur| && PlayRound(cur, n, j) == Playing(Cards())
    }

    /** After draw `i` of `play_part2`, starting from boards `bs`, the
        boards of `playing` are still playing and the boards stand as
        `LastRounds` says. */
    ghost predicate LeftAt(bs: seq<Card>, i: nat, playing: seq<nat>)
      reads this, Repr
    {
      Valid() && AllShaped(bs) && i <= |nums| && LastRounds(bs, nums, i) == Left(Cards(), playing)
    }

    /** Midway through sorting a draw of `play_part2`: the first `t` boards
        of `playing` have opened `n` and been sorted, starting from `cur`. */
    ghost predicate SortingAt(cur: seq<Card>, n: nat, playing: seq<nat>, t: nat, winners: seq<nat>, remains: seq<nat>)
      reads this, Repr
    {
      && Valid() && AllShaped(cur) && Indices(playing, |cur|) && t <= |playing|
      && SortRound(cur, n, playing, t) == Sorted(Cards(), winners, remains)
    }

    /** `play`: open each draw on each board in turn, and stop with the
        score of the first board that wins; `None` where the source panics
        because no board ever wins. */
    method Play() returns (r: Option<nat>)
      requires Valid()
      modifies Repr
      ensures Valid()
      ensures r == Day04.Play(old(Cards()), nums)
      ensures Cards() == PlayBoards(old(Cards()), nums)
    {
      ghost var bs := Cards();
      var i := 0;
      while i < |nums|
        invariant PlaysAt(bs, i)
      {
        ghost var cur := Cards();
        var score: Option<nat>;
        ghost var j: nat;
        score, j := PlayDraw(nums[i]);
        PlayRoundsStep(bs, nums, i, cur);
        if score.Some? {
          WonRoundsStay(bs, nums, i + 1, |nums|);
          PlayStops(bs, nums, i, cur, j, Cards());
          return score;
        }
        i := i + 1;
      }
      PlayRunsOut(bs, nums, Cards());
      return None;
    }

    /** The inner loop of `play`: draw `n` opens on each board in turn, up
        to the first board that wins. */
    method PlayDraw(n: nat) returns (r: Option<nat>, ghost j: nat)
      requires Valid()
      modifies Repr
      ensures Valid()
      ensures r.Some? ==> PlayRound(old(Cards()), n, |boards|) == Won(r.value) && WinsRound(old(Cards()), n, j, Cards())
      ensures r.None? ==> PlayRound(old(Cards()), n, |boards|) == Playing(Cards())
    {
      ghost var cur := Cards();
      var k := 0;
      while k < |boards|
        invariant PlayingAt(cur, n, k)
      {
        var score := PlayBoard(cur, n, k);
        if score.Some? {
          return score, k;
        }
        k := k + 1;
      }
      return None, k;
    }

    /** One step of the inner loop of `play`: board `j` opens `n`, and if
        it has won, its score ends the draw. */
    method PlayBoard(ghost cur: seq<Card>, n: nat, j: nat) returns (r: Option<nat>)
      requires PlayingAt(cur, n, j) && j < |cur|
      modifies Repr
      ensures Valid()
      ensures r.Some? ==> PlayRound(cur, n, |cur|) == Won(r.value) && WinsRound(cur, n, j, Cards())
      ensures r.None? ==> PlayingAt(cur, n, j + 1)
    {
      ghost var before := Cards();
      var won := OpenOn(j, n);
      PlayRoundStep(cur, n, j, before, Cards()[j]);
      if won {
        var score := boards[j].ScoreAt(n);
        WonRoundStays(cur, n, j + 1, |cur|);
        return Some(score);
      }
      return None;
    }

    /** `play_part2`: each draw opens on the boards still playing and sorts
        them into winners and the rest; the game ends with the score of a
        draw's only winner once no board remains, and the boards that have
        not won play on. `None` where the source panics. */
    method PlayPart2() returns (r: Option<nat>)
      requires Valid()
      modifies Repr
      ensures Valid()
      ensures r == PlayLast(old(Cards()), nums)
      ensures StoppedAtLast(old(Cards()), nums, Cards())
      ensures r.None? ==> Cards() == Stopped(old(Cards()), nums, |nums|)
    {
      ghost var bs := Cards();
      var playings := Range(|boards|);
      var i := 0;
      while i < |nums|
        invariant LeftAt(bs, i, playings)
      {
        var score, remains := LastDraw(bs, i, playings);
        if score.Some? {
          return score;
        }
        playings := remains;
        i := i + 1;
      }
      LeftIsStopped(bs, nums, i, Cards(), playings);
      return None;
    }

    /** One draw of `play_part2`: the boards of `playing` open it and are
        sorted; the game ends with the score of the draw's only winner when
        no board remains, and otherwise the remaining boards play on. */
    method LastDraw(ghost bs: seq<Card>, i: nat, playing: seq<nat>) returns (r: Option<nat>, remains: seq<nat>)
      requires LeftAt(bs, i, playing) && i < |nums|
      modifies Repr
      ensures Valid()
      ensures r.Some? ==> r == PlayLast(bs, nums) && StoppedAtLast(bs, nums, Cards())
      ensures r.None? ==> LeftAt(bs, i + 1, remains)
    {
      var n := nums[i];
      ghost var cur := Cards();
      var winners;
      winners, remains := SortDraw(n, playing);
      LastRoundsSorted(bs, nums, i, cur, playing, Cards(), winners, remains);
      EndsStopped(bs, nums, i, cur, playing, Cards(), winners, remains);
      if |remains| == 0 && |winners| == 1 {
        var score := boards[winners[0]].ScoreAt(n);
        return Some(score), remains;
      }
      return None, remains;
    }

    /** The inner loop of `play_part2`: each board of `playing` in turn
        opens `n` and joins the winners or the remaining boards. */
    method SortDraw(n: nat, playing: seq<nat>) returns (winners: seq<nat>, remains: seq<nat>)
      requires Valid() && Indices(playing, |boards|)
      modifies Repr
      ensures Valid()
      ensures SortRound(old(Cards()), n, playing, |playing|) == Sorted(Cards(), winners, remains)
    {
      ghost var cur := Cards();
      winners, remains := [], [];
      var t := 0;
      while t < |playing|
        invariant SortingAt(cur, n, playing, t, winners, remains)
      {
        winners, remains := SortBoard(cur, n, playing, t, winners, remains);
        t := t + 1;
      }
    }

    /** One step of the inner loop of `play_part2`: board `playing[t]`
        opens `n` and is pushed on the winners or on the remaining boards. */
    method SortBoard(ghost cur: seq<Card>, n: nat, playing: seq<nat>, t: nat, winners: seq<nat>, remains: seq<nat>)
      returns (winners': seq<nat>, remains': seq<nat>)
      requires SortingAt(cur, n, playing, t, winners, remains) && t < |playing|
      modifies Repr
      ensures SortingAt(cur, n, playing, t + 1, winners', remains')
    {
      var k := playing[t];
      ghost var before := Cards();
      var won := OpenOn(k, n);
      SortRoundStep(cur, n, playing, t, before, winners, remains, Cards()[k]);
      winners', remains' := winners, remains;
      if won {
        winners' := winners + [k];
      } else {
        remains' := remains + [k];
      }
    }

    /** `b.open(n)` and `b.is_winning()` on board `j`: it opens the number,
        every other board stays as it was, and the answer says whether the
        board has now won. */
    method OpenOn(j: nat, n: nat) returns (won: bool)
      requires Valid() && j < |boards|
      modifies boards[j].rows, boards[j].cols
      ensures Valid()
      ensures Cards() == old(Cards())[j := Day04.Open(old(Cards())[j], n)]
      ensures won == Winning(Cards()[j])
    {
      ghost var before := Cards();
      boards[j].Open(n);
      forall k | 0 <= k < |boards| && k != j
        ensures boards[k].View() == before[k]
      {
        assert Apart(boards, j, k);
      }
      won := boards[j].IsWinning();
    }
  }

  /** Board `j` of a draw in progress opens the number. */
  lemma PlayRoundStep(bs: seq<Card>, n: nat, j: nat, cur: seq<Card>, b: Card)
    requires AllShaped(bs) && j < |bs| && PlayRound(bs, n, j) == Playing(cur) && b == Day04.Open(cur[j], n)
    ensures Winning(b) ==> PlayRound(bs, n, j + 1) == Won(Score(b, n))
    ensures !Winning(b) ==> PlayRound(bs, n, j + 1) == Playing(cur[j := b])
  {
  }

  /** Draw `i` of `play` is a round over the boards as they stand. */
  lemma PlayRoundsStep(bs: seq<Card>, nums: seq<nat>, i: nat, cur: seq<Card>)
    requires AllShaped(bs) && i < |nums| && PlayRounds(bs, nums, i) == Playing(cur)
    ensures PlayRounds(bs, nums, i + 1) == PlayRound(cur, nums[i], |cur|)
  {
  }

  /** The draw of `play` that a board wins leaves the boards as `play`
      leaves them. */
  lemma PlayStops(bs: seq<Card>, nums: seq<nat>, i: nat, cur: seq<Card>, j: nat, after: seq<Card>)
    requires AllShaped(bs) && i < |nums| && PlayRounds(bs, nums, i) == Playing(cur)
    requires WinsRound(cur, nums[i], j, after)
    ensures PlayBoards(bs, nums) == after
  {
    PlayRoundsFirstWin(bs, nums, i);
    assert |cur| == |bs|;
    PlayRoundFirstWinner(bs, nums, i, j);
    ProgressStep(bs, nums, i, j);
    FirstWinAt(bs, nums, i, j);
  }

  /** `play` running out of draws leaves every board after every draw. */
  lemma PlayRunsOut(bs: seq<Card>, nums: seq<nat>, cur: seq<Card>)
    requires AllShaped(bs) && PlayRounds(bs, nums, |nums|) == Playing(cur)
    ensures PlayBoards(bs, nums) == cur
  {
    PlayRoundsFirstWin(bs, nums, |nums|);
    assert nums[..|nums|] == nums;
  }

  /** Boards still playing after draw `i` of `play_part2` stand as they
      stopped, and no board has yet won last. */
  lemma LeftIsStopped(bs: seq<Card>, nums: seq<nat>, i: nat, cur: seq<Card>, playing: seq<nat>)
    requires AllShaped(bs) && i <= |nums| && LastRounds(bs, nums, i) == Left(cur, playing)
    ensures NoLastBy(bs, nums, i) && cur == Stopped(bs, nums, i) && playing == StillPlaying(bs, nums, i, |bs|)
    ensures i == |nums| ==> StoppedAtLast(bs, nums, cur)
  {
    LastRoundsState(bs, nums, i);
    assert forall d: nat, k: nat :: d < i && LastToWin(bs, nums, d, k) ==> LastRounds(bs, nums, i).Last?;
  }

  /** The boards sorted at draw `i` of `play_part2` stand as they stopped
      after it, and when the draw ends the game, it is the draw at which
      the last board wins. */
  lemma EndsStopped(bs: seq<Card>, nums: seq<nat>, i: nat, cur: seq<Card>, playing: seq<nat>,
                    boards: seq<Card>, ws: seq<nat>, ls: seq<nat>)
    requires AllShaped(bs) && i < |nums| && LastRounds(bs, nums, i) == Left(cur, playing)
    requires SortRound(cur, nums[i], playing, |playing|) == Sorted(boards, ws, ls)
    ensures boards == Stopped(bs, nums, i + 1)
    ensures |ls| == 0 && |ws| == 1 ==> StoppedAtLast(bs, nums, boards)
  {
    LeftIsStopped(bs, nums, i, cur, playing);
    DrawSorts(bs, nums, i);
    if |ls| == 0 && |ws| == 1 {
      LastRoundsUnfold(bs, nums, i);
      NextRoundSorted(cur, nums[i], playing, boards, ws, ls);
      LastRoundsState(bs, nums, i + 1);
      assert !NoLastBy(bs, nums, i + 1);
      var e: nat, k: nat :| e < i + 1 && k < |bs| && LastToWin(bs, nums, e, k);
      assert e == i;
      forall d: nat, k': nat | LastToWin(bs, nums, d, k')
        ensures boards == Stopped(bs, nums, d + 1)
      {
        LastToWinUnique(bs, nums, e, k, d, k');
      }
    }
  }

  /** Board `playing[t]` of a draw of `play_part2` opens the number and
      joins the winners or the remaining boards. */
  lemma SortRoundStep(bs: seq<Card>, n: nat, playing: seq<nat>, t: nat,
                      cur: seq<Card>, ws: seq<nat>, ls: seq<nat>, b: Card)
    requires AllShaped(bs) && Indices(playing, |bs|) && t < |playing|
    requires SortRound(bs, n, playing, t) == Sorted(cur, ws, ls)
    requires b == Day04.Open(cur[playing[t]], n)
    ensures Winning(b) ==> SortRound(bs, n, playing, t + 1) == Sorted(cur[playing[t] := b], ws + [playing[t]], ls)
    ensures !Winning(b) ==> SortRound(bs, n, playing, t + 1) == Sorted(cur[playing[t] := b], ws, ls + [playing[t]])
  {
  }

  /** A round of `play_part2` from its sorted draw. */
  lemma NextRoundSorted(cur: seq<Card>, n: nat, playing: seq<nat>, boards: seq<Card>, ws: seq<nat>, ls: seq<nat>)
    requires AllShaped(cur) && Indices(playing, |cur|)
    requires SortRound(cur, n, playing, |playing|) == Sorted(boards, ws, ls)
    ensures |ls| == 0 && |ws| == 1 ==> NextRound(Left(cur, playing), n) == Last(Score(boards[ws[0]], n))
    ensures !(|ls| == 0 && |ws| == 1) ==> NextRound(Left(cur, playing), n) == Left(boards, ls)
  {
  }

  /** Draw `i` of `play_part2`, from the boards it sorted: it ends the game
      with its only winner's score when no board remains, and otherwise the
      boards that remain play on. */
  lemma LastRoundsSorted(bs: seq<Card>, nums: seq<nat>, i: nat, cur: seq<Card>, playing: seq<nat>,
                         boards: seq<Card>, ws: seq<nat>, ls: seq<nat>)
    requires AllShaped(bs) && i < |nums| && LastRounds(bs, nums, i) == Left(cur, playing)
    requires SortRound(cur, nums[i], playing, |playing|) == Sorted(boards, ws, ls)
    ensures |ls| == 0 && |ws| == 1 ==> ws[0] < |boards| && PlayLast(bs, nums) == Some(Score(boards[ws[0]], nums[i]))
    ensures !(|ls| == 0 && |ws| == 1) ==> LastRounds(bs, nums, i + 1) == Left(boards, ls)
  {
    LastRoundsUnfold(bs, nums, i);
    NextRoundSorted(cur, nums[i], playing, boards, ws, ls);
    if |ls| == 0 && |ws| == 1 {
      LastStays(bs, nums, i + 1, |nums|);
    }
  }

  /** Once the last board is scored, later draws keep the score. */
  lemma {:induction false} LastStays(bs: seq<Card>, nums: seq<nat>, i: nat, m: nat)
    requires AllShaped(bs) && i <= m <= |nums| && LastRounds(bs, nums, i).Last?
    ensures LastRounds(bs, nums, m) == LastRounds(bs, nums, i)
    decreases m - i
  {
    if i < m {
      LastStays(bs, nums, i, m - 1);
      LastRoundsUnfold(bs, nums, m - 1);
    }
  }

  /** Once a board has won, the rest of the draw does not change the
      outcome. */
  lemma {:induction false} WonRoundStays(bs: seq<Card>, n: nat, j: nat, m: nat)
    requires AllShaped(bs) && j <= m <= |bs| && PlayRound(bs, n, j).Won?
    ensures PlayRound(bs, n, m) == PlayRound(bs, n, j)
    decreases m - j
  {
    if j < m {
      WonRoundStays(bs, n, j, m - 1);
    }
  }

  /** Once a board has won, later draws do not change the outcome. */
  lemma {:induction false} WonRoundsStay(bs: seq<Card>, nums: seq<nat>, i: nat, m: nat)
    requires AllShaped(bs) && i <= m <= |nums| && PlayRounds(bs, nums, i).Won?
    ensures PlayRounds(bs, nums, m) == PlayRounds(bs, nums, i)
    decreases m - i
  {
    if i < m {
      WonRoundsStay(bs, nums, i, m - 1);
    }
  }

  /** The boards read so far: one per block of `done`, as that block
      reads, and each with arrays of its own among `repr`. */
  ghost predicate Built(boards: seq<Board>, repr: set<object>, done: seq<string>)
    reads repr
  {
    && AllValid(boards, repr) && Separate(boards) && |boards| == |done|
    && forall i :: 0 <= i < |done| ==> ParseCard(done[i]) == Ok(boards[i].View())
  }

  /** Midway through the loop of `BingoGame::from_str` at line `k`: the
      blocks closed so far, `done`, then the blocks still to come from the
      lines after `k`, starting with `buf`, are all the blocks. */
  ghost predicate Gathered(ls: seq<string>, k: nat, buf: string, done: seq<string>) {
    k <= |ls| && done + Blocks(ls[k..], buf) == Blocks(ls, [])
  }

  /** A non-empty line joins the block being gathered. */
  lemma GatherLine(ls: seq<string>, k: nat, buf: string, done: seq<string>)
    requires Gathered(ls, k, buf, done) && k < |ls| && ls[k] != []
    ensures Gathered(ls, k + 1, buf + ls[k] + "\n", done)
  {
    assert ls[k..][1..] == ls[k + 1..];
  }

  /** An empty line with no block gathered closes nothing. */
  lemma GatherBlank(ls: seq<string>, k: nat, done: seq<string>)
    requires Gathered(ls, k, [], done) && k < |ls| && ls[k] == []
    ensures Gathered(ls, k + 1, [], done)
  {
    assert ls[k..][1..] == ls[k + 1..];
    assert Blocks(ls[k..], []) == [] + Blocks(ls[k + 1..], []);
  }

  /** An empty line closes the block being gathered. */
  lemma GatherClose(ls: seq<string>, k: nat, buf: string, done: seq<string>)
    requires Gathered(ls, k, buf, done) && k < |ls| && ls[k] == [] && buf != []
    ensures Gathered(ls, k + 1, [], done + [buf])
    ensures Blocks(ls, []) == done + [buf] + Blocks(ls[k + 1..], [])
  {
    assert ls[k..][1..] == ls[k + 1..];
    var rest := Blocks(ls[k + 1..], []);
    assert Blocks(ls[k..], buf) == [buf] + rest;
    assert done + ([buf] + rest) == done + [buf] + rest;
  }

  /** At the end of the lines, the block still gathered is the last. */
  lemma GatherEnd(ls: seq<string>, buf: string, done: seq<string>)
    requires Gathered(ls, |ls|, buf, done)
    ensures Blocks(ls, []) == done + (if buf == [] then [] else [buf])
  {
    assert ls[|ls|..] == [];
  }

  /** A new board read from one more block keeps the boards read so far
      as they were. */
  lemma Adjoin(boards: seq<Board>, repr: set<object>, done: seq<string>, b: Board, block: string)
    requires Built(boards, repr, done)
    requires b.Valid() && b.Repr !! repr && ParseCard(block) == Ok(b.View())
    ensures Built(boards + [b], repr + b.Repr, done + [block])
  {
    var bs := boards + [b];
    forall j, k
      ensures Apart(bs, j, k)
    {
      if 0 <= j < |boards| && 0 <= k < |boards| {
        assert Apart(boards, j, k);
      }
    }
  }

  /** A block that is not a board fails the game it is part of. */
  lemma BlockFails(done: seq<string>, rest: seq<string>, block: string)
    requires ParseCard(block).Err?
    ensures ParseCards(done + [block] + rest).Err?
    ensures ParseCards(done + [block]).Err?
  {
    CardsIff(done + [block] + rest);
    CardsIff(done + [block]);
    assert (done + [block] + rest)[|done|] == block;
    assert (done + [block])[|done|] == block;
  }

  /** The boards read from all the blocks are the cards `ParseCards` gives. */
  lemma BuiltCards(boards: seq<Board>, repr: set<object>, done: seq<string>)
    requires Built(boards, repr, done)
    ensures ParseCards(done).Ok? && ParseCards(done).value == Views(boards, repr)
  {
    CardsIff(done);
  }
}
