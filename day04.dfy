/** Day 4: bingo. A board holds 25 numbers in row-major order and records
    marks as one 5-bit mask per row and one per column; a draw marks the
    first cell holding the number. Part one scores the first board to win,
    part two the board that is left to win last. */
module Day04 {
  import opened Common

  /** `SIZE`: boards are `Size` by `Size`. */
  const Size: nat := 5
  const CellCount: nat := 25

  /** `(1 << SIZE) - 1`: the mask of a line whose every cell is marked. */
  const FullLine: bv8 := 31

  /** `1 << k` as a `u8`, for the positions of a line, tabulated. */
  function Bit(k: nat): bv8
    requires k < Size
  {
    if k == 0 then 1 else if k == 1 then 2 else if k == 2 then 4 else if k == 3 then 8 else 16
  }

  lemma BitIsShift(k: nat)
    requires k < Size
    ensures Bit(k) == (1 as bv8) << k
  {
  }

  /** `Pos`: an index into the row-major cells. */
  datatype Pos = Pos(index: nat) {
    function Row(): nat { index / 5 }
    function Col(): nat { index % 5 }
  }

  /** A position on the board has its row and column on the board. */
  lemma PosBounds(p: nat)
    requires p < CellCount
    ensures Pos(p).Row() < Size && Pos(p).Col() < Size && p == 5 * Pos(p).Row() + Pos(p).Col()
  {
  }

  /** Row and column recover the pair a position was made from. */
  lemma PosRowCol(r: nat, c: nat)
    requires c < Size
    ensures Pos(5 * r + c).Row() == r && Pos(5 * r + c).Col() == c
  {
  }

  /* ---------------------------------------------------------------------
     The value of a board
     --------------------------------------------------------------------- */

  /** A board as a value: the cells, the row masks and the column masks. */
  datatype Card = Card(cells: seq<nat>, rows: seq<bv8>, cols: seq<bv8>)

  predicate Shaped(b: Card) {
    |b.cells| == CellCount && |b.rows| == Size && |b.cols| == Size
  }

  /** The two records of the marks agree: bit c of row r's mask is set
      exactly when bit r of column c's mask is; and no mask has a bit beyond
      the board. */
  predicate Consistent(b: Card) {
    && Shaped(b)
    && (forall r, c :: 0 <= r < Size && 0 <= c < Size ==>
          (b.rows[r] & Bit(c) != 0) == (b.cols[c] & Bit(r) != 0))
    && (forall r :: 0 <= r < Size ==> b.rows[r] <= FullLine)
    && (forall c :: 0 <= c < Size ==> b.cols[c] <= FullLine)
  }

  /** A board as `from_str` leaves it: nothing marked. */
  function Blank(cells: seq<nat>): Card {
    Card(cells, [0, 0, 0, 0, 0], [0, 0, 0, 0, 0])
  }

  /** `find_pos`: the first index holding `num`. */
  function FirstIndex(cells: seq<nat>, num: nat): (r: Option<nat>)
    ensures r.Some? ==> r.value < |cells|
  {
    if cells == [] then None
    else if cells[0] == num then Some(0)
    else
      match FirstIndex(cells[1..], num)
      case None => None
      case Some(p) => Some(p + 1)
  }

  /** `find_pos` finds the first cell holding the number, and finds none
      exactly when the number is not on the board. */
  lemma {:induction false} FirstIndexIsFirst(cells: seq<nat>, num: nat)
    ensures FirstIndex(cells, num).Some? ==>
              var p := FirstIndex(cells, num).value;
              cells[p] == num && forall q :: 0 <= q < p ==> cells[q] != num
    ensures FirstIndex(cells, num).None? <==> num !in cells
  {
    if cells != [] && cells[0] != num {
      FirstIndexIsFirst(cells[1..], num);
      assert cells == [cells[0]] + cells[1..];
    }
  }

  /** Set the bit of column `col` in row `row`'s mask and the bit of row
      `row` in column `col`'s mask. */
  function Mark(b: Card, row: nat, col: nat): (r: Card)
    requires Shaped(b) && row < Size && col < Size
    ensures Shaped(r) && r.cells == b.cells
  {
    b.(rows := b.rows[row := b.rows[row] | Bit(col)],
       cols := b.cols[col := b.cols[col] | Bit(row)])
  }

  /** `open`: mark the first cell holding `num`; a number not on the board
      changes nothing. */
  function Open(b: Card, num: nat): (r: Card)
    requires Shaped(b)
    ensures Shaped(r) && r.cells == b.cells
  {
    match FirstIndex(b.cells, num)
    case None => b
    case Some(p) =>
      PosBounds(p);
      Mark(b, Pos(p).Row(), Pos(p).Col())
  }

  /** `is_marked_at`: both the row's and the column's mask have the bit. */
  predicate IsMarkedAt(b: Card, p: nat)
    requires Shaped(b) && p < CellCount
  {
    PosBounds(p);
    MarkedCell(b, Pos(p).Row(), Pos(p).Col())
  }

  /** The cell in row r and column c is marked. */
  predicate MarkedCell(b: Card, r: nat, c: nat)
    requires Shaped(b) && r < Size && c < Size
  {
    b.rows[r] & Bit(c) != 0 && b.cols[c] & Bit(r) != 0
  }

  /** Every cell of row r, or of column c, is marked. */
  predicate RowComplete(b: Card, r: nat)
    requires Shaped(b) && r < Size
  {
    forall c :: 0 <= c < Size ==> MarkedCell(b, r, c)
  }

  predicate ColComplete(b: Card, c: nat)
    requires Shaped(b) && c < Size
  {
    forall r :: 0 <= r < Size ==> MarkedCell(b, r, c)
  }

  /** The marked positions. */
  function Marked(b: Card): set<nat>
    requires Shaped(b)
  {
    set p | 0 <= p < CellCount && IsMarkedAt(b, p)
  }

  /** `is_winning`: some row mask or some column mask is full. */
  predicate Winning(b: Card)
    requires Shaped(b)
  {
    (exists r :: 0 <= r < Size && b.rows[r] == FullLine) ||
    (exists c :: 0 <= c < Size && b.cols[c] == FullLine)
  }

  /** `all_unmarked`, over the positions before `x`: the numbers of the
      unmarked cells in position order. */
  function UnmarkedBefore(b: Card, x: nat): seq<nat>
    requires Shaped(b) && x <= CellCount
  {
    if x == 0 then []
    else UnmarkedBefore(b, x - 1) + (if IsMarkedAt(b, x - 1) then [] else [b.cells[x - 1]])
  }

  function Unmarked(b: Card): seq<nat>
    requires Shaped(b)
  {
    UnmarkedBefore(b, CellCount)
  }

  function Sum(s: seq<nat>): nat {
    if s == [] then 0 else s[0] + Sum(s[1..])
  }

  /** The final score: the sum of the unmarked numbers times the draw. */
  function Score(b: Card, n: nat): nat
    requires Shaped(b)
  {
    Times(Sum(Unmarked(b)), n)
  }

  /** `a * n`, as `n` copies of `a` added up. */
  function Times(a: nat, n: nat): nat {
    if n == 0 then 0 else Times(a, n - 1) + a
  }

  lemma {:induction false} TimesIsProduct(a: nat, n: nat)
    ensures Times(a, n) == a * n
  {
    if n > 0 {
      TimesIsProduct(a, n - 1);
    }
  }

  /** The board after each number of `draws` in turn. */
  function After(b: Card, draws: seq<nat>): (r: Card)
    requires Shaped(b)
    ensures Shaped(r) && r.cells == b.cells
    decreases |draws|
  {
    if draws == [] then b else Open(After(b, draws[..|draws| - 1]), draws[|draws| - 1])
  }

  /* ---------------------------------------------------------------------
     What `open` does to the marks
     --------------------------------------------------------------------- */

  /** A mask without bits beyond the board is full exactly when it has every
      bit of the board. */
  lemma FullMask(m: bv8)
    requires m <= FullLine
    ensures m == FullLine <==> forall k :: 0 <= k < Size ==> m & Bit(k) != 0
  {
    if m == FullLine {
      forall k | 0 <= k < Size
        ensures m & Bit(k) != 0
      {
        if k == 0 {} else if k == 1 {} else if k == 2 {} else if k == 3 {} else {}
      }
    } else {
      assert m & Bit(0) == 0 || m & Bit(1) == 0 || m & Bit(2) == 0 || m & Bit(3) == 0 || m & Bit(4) == 0;
    }
  }

  /** Setting bit k of a mask leaves every other bit as it was. */
  lemma SetBit(m: bv8, k: nat, j: nat)
    requires k < Size && j < Size
    ensures (m | Bit(k)) & Bit(j) != 0 <==> j == k || m & Bit(j) != 0
    ensures m <= FullLine ==> m | Bit(k) <= FullLine
  {
    if j == 0 {} else if j == 1 {} else if j == 2 {} else if j == 3 {} else {}
  }

  /** `open` keeps the masks consistent. */
  lemma OpenConsistent(b: Card, num: nat)
    requires Consistent(b)
    ensures Consistent(Open(b, num))
  {
    if FirstIndex(b.cells, num).Some? {
      var p := FirstIndex(b.cells, num).value;
      PosBounds(p);
      MarkConsistent(b, Pos(p).Row(), Pos(p).Col());
    }
  }

  /** Marking one cell sets its bit in both masks, so they still agree. */
  lemma MarkConsistent(b: Card, row: nat, col: nat)
    requires Consistent(b) && row < Size && col < Size
    ensures Consistent(Mark(b, row, col))
  {
    var m := Mark(b, row, col);
    forall r, c | 0 <= r < Size && 0 <= c < Size
      ensures (m.rows[r] & Bit(c) != 0) == (m.cols[c] & Bit(r) != 0)
    {
      MarkRowMask(b, row, col, r, c);
      MarkColMask(b, row, col, r, c);
    }
    SetBit(b.rows[row], col, 0);
    SetBit(b.cols[col], row, 0);
  }

  /** `open` marks exactly the first cell holding the number, if any, and
      nothing else. */
  lemma OpenMarks(b: Card, num: nat)
    requires Shaped(b)
    ensures Marked(Open(b, num)) ==
            Marked(b) + (if FirstIndex(b.cells, num).Some? then {FirstIndex(b.cells, num).value} else {})
  {
    if FirstIndex(b.cells, num).Some? {
      var p := FirstIndex(b.cells, num).value;
      PosBounds(p);
      forall q | 0 <= q < CellCount
        ensures IsMarkedAt(Open(b, num), q) <==> IsMarkedAt(b, q) || q == p
      {
        PosBounds(q);
        PosEq(p, q);
        MarkCell(b, Pos(p).Row(), Pos(p).Col(), Pos(q).Row(), Pos(q).Col());
      }
    }
  }

  /** Marking a cell marks it and leaves every other cell as it was. */
  lemma MarkCell(b: Card, row: nat, col: nat, r: nat, c: nat)
    requires Shaped(b) && row < Size && col < Size && r < Size && c < Size
    ensures MarkedCell(Mark(b, row, col), r, c) <==> MarkedCell(b, r, c) || (r == row && c == col)
  {
    var m := Mark(b, row, col);
    MarkedCellIs(m, r, c);
    MarkedCellIs(b, r, c);
    MarkRowMask(b, row, col, r, c);
    MarkColMask(b, row, col, r, c);
  }

  /** A cell is marked when its bit is set in both its row's and its
      column's mask. */
  lemma MarkedCellIs(b: Card, r: nat, c: nat)
    requires Shaped(b) && r < Size && c < Size
    ensures MarkedCell(b, r, c) ==> b.rows[r] & Bit(c) != 0 && b.cols[c] & Bit(r) != 0
    ensures b.rows[r] & Bit(c) != 0 && b.cols[c] & Bit(r) != 0 ==> MarkedCell(b, r, c)
  {
  }

  lemma MarkRowMask(b: Card, row: nat, col: nat, r: nat, c: nat)
    requires Shaped(b) && row < Size && col < Size && r < Size && c < Size
    ensures Mark(b, row, col).rows[r] & Bit(c) != 0 ==> (r == row && c == col) || b.rows[r] & Bit(c) != 0
    ensures (r == row && c == col) || b.rows[r] & Bit(c) != 0 ==> Mark(b, row, col).rows[r] & Bit(c) != 0
  {
    assert Mark(b, row, col).rows == b.rows[row := b.rows[row] | Bit(col)];
    UpdateBit(b.rows, row, col, r, c);
  }

  lemma MarkColMask(b: Card, row: nat, col: nat, r: nat, c: nat)
    requires Shaped(b) && row < Size && col < Size && r < Size && c < Size
    ensures Mark(b, row, col).cols[c] & Bit(r) != 0 ==> (r == row && c == col) || b.cols[c] & Bit(r) != 0
    ensures (r == row && c == col) || b.cols[c] & Bit(r) != 0 ==> Mark(b, row, col).cols[c] & Bit(r) != 0
  {
    assert Mark(b, row, col).cols == b.cols[col := b.cols[col] | Bit(row)];
    UpdateBit(b.cols, col, row, c, r);
  }

  /** Setting bit k of mask i in a list of masks changes bit k of mask i and
      nothing else. */
  lemma UpdateBit(s: seq<bv8>, i: nat, k: nat, x: nat, j: nat)
    requires i < |s| && x < |s| && k < Size && j < Size
    ensures s[i := s[i] | Bit(k)][x] & Bit(j) != 0 <==> (x == i && j == k) || s[x] & Bit(j) != 0
  {
    SetBit(s[i], k, j);
  }

  /** Positions are equal exactly when their rows and columns are. */
  lemma PosEq(p: nat, q: nat)
    ensures p == q <==> Pos(p).Row() == Pos(q).Row() && Pos(p).Col() == Pos(q).Col()
  {
  }

  /** Opening the same number twice is opening it once. */
  lemma OpenIdempotent(b: Card, num: nat)
    requires Shaped(b)
    ensures Open(Open(b, num), num) == Open(b, num)
  {
    if FirstIndex(b.cells, num).Some? {
      var p := FirstIndex(b.cells, num).value;
      var row, col := Pos(p).Row(), Pos(p).Col();
      OrTwice(b.rows[row], Bit(col));
      OrTwice(b.cols[col], Bit(row));
    }
  }

  lemma OrTwice(m: bv8, k: bv8)
    ensures (m | k) | k == m | k
  {
  }

  /** No mark is ever removed. */
  lemma OpenMonotone(b: Card, num: nat)
    requires Shaped(b)
    ensures Marked(b) <= Marked(Open(b, num))
  {
    OpenMarks(b, num);
  }

  /** With consistent masks the column check of `is_marked_at` agrees with
      the row check. */
  lemma MarkedAtRow(b: Card, p: nat)
    requires Consistent(b) && p < CellCount
    ensures IsMarkedAt(b, p) <==> b.rows[Pos(p).Row()] & Bit(Pos(p).Col()) != 0
  {
  }

  /** A row mask is full exactly when every cell of the row is marked. */
  lemma RowFullIff(b: Card, r: nat)
    requires Consistent(b) && r < Size
    ensures b.rows[r] == FullLine <==> RowComplete(b, r)
  {
    FullMask(b.rows[r]);
    assert forall c :: 0 <= c < Size ==> (MarkedCell(b, r, c) <==> b.rows[r] & Bit(c) != 0);
  }

  lemma ColFullIff(b: Card, c: nat)
    requires Consistent(b) && c < Size
    ensures b.cols[c] == FullLine <==> ColComplete(b, c)
  {
    FullMask(b.cols[c]);
    assert forall r :: 0 <= r < Size ==> (MarkedCell(b, r, c) <==> b.cols[c] & Bit(r) != 0);
  }

  /** A board wins exactly when some row or some column has every cell
      marked. */
  lemma WinningIff(b: Card)
    requires Consistent(b)
    ensures Winning(b) <==>
            (exists r :: 0 <= r < Size && RowComplete(b, r)) ||
            (exists c :: 0 <= c < Size && ColComplete(b, c))
  {
    forall k | 0 <= k < Size
      ensures b.rows[k] == FullLine <==> RowComplete(b, k)
      ensures b.cols[k] == FullLine <==> ColComplete(b, k)
    {
      RowFullIff(b, k);
      ColFullIff(b, k);
    }
  }

  /** A marked cell is a marked position. */
  lemma MarkedCellIsMarked(b: Card, r: nat, c: nat)
    requires Shaped(b) && r < Size && c < Size
    ensures MarkedCell(b, r, c) <==> 5 * r + c in Marked(b)
  {
    PosRowCol(r, c);
    PosBounds(5 * r + c);
  }

  /** A blank board is consistent and has nothing marked. */
  lemma BlankEmpty(cells: seq<nat>)
    requires |cells| == CellCount
    ensures Consistent(Blank(cells))
    ensures Marked(Blank(cells)) == {}
    ensures !Winning(Blank(cells))
  {
  }

  /** The marks after several draws: the first position of every drawn
      number that is on the board, whatever the order of the draws. */
  lemma {:induction false} AfterMarks(b: Card, draws: seq<nat>)
    requires Shaped(b)
    ensures Marked(After(b, draws)) ==
            Marked(b) + set n | n in draws && FirstIndex(b.cells, n).Some? :: FirstIndex(b.cells, n).value
    decreases |draws|
  {
    if draws != [] {
      var front, last := draws[..|draws| - 1], draws[|draws| - 1];
      AfterMarks(b, front);
      OpenMarks(After(b, front), last);
      var rest := set n | n in front && FirstIndex(b.cells, n).Some? :: FirstIndex(b.cells, n).value;
      var all := set n | n in draws && FirstIndex(b.cells, n).Some? :: FirstIndex(b.cells, n).value;
      assert forall n :: n in draws <==> n == last || n in front by {
        assert draws == front + [last];
      }
      assert all == rest + (if FirstIndex(b.cells, last).Some? then {FirstIndex(b.cells, last).value} else {});
    }
  }

  /** Or-ing a bit of the board into a full mask leaves it full. */
  lemma FullStaysFull(k: nat)
    requires k < Size
    ensures FullLine | Bit(k) == FullLine
  {
    if k == 0 {} else if k == 1 {} else if k == 2 {} else if k == 3 {} else {}
  }

  /** A draw never takes a win away. */
  lemma OpenKeepsWinning(b: Card, num: nat)
    requires Shaped(b) && Winning(b)
    ensures Winning(Open(b, num))
  {
    if FirstIndex(b.cells, num).Some? {
      var p := FirstIndex(b.cells, num).value;
      PosBounds(p);
      var row, col := Pos(p).Row(), Pos(p).Col();
      var b' := Open(b, num);
      if exists r :: 0 <= r < Size && b.rows[r] == FullLine {
        var r :| 0 <= r < Size && b.rows[r] == FullLine;
        FullStaysFull(col);
        assert b'.rows[r] == FullLine;
      } else {
        var c :| 0 <= c < Size && b.cols[c] == FullLine;
        FullStaysFull(row);
        assert b'.cols[c] == FullLine;
      }
    }
  }

  /** Draws past a win keep the board winning. */
  lemma {:induction false} AfterKeepsWinning(b: Card, draws: seq<nat>)
    requires Shaped(b) && Winning(b)
    ensures Winning(After(b, draws))
    decreases |draws|
  {
    if draws != [] {
      AfterKeepsWinning(b, draws[..|draws| - 1]);
      OpenKeepsWinning(After(b, draws[..|draws| - 1]), draws[|draws| - 1]);
    }
  }

  /** Draws keep the masks consistent. */
  lemma {:induction false} AfterConsistent(b: Card, draws: seq<nat>)
    requires Consistent(b)
    ensures Consistent(After(b, draws))
    decreases |draws|
  {
    if draws != [] {
      AfterConsistent(b, draws[..|draws| - 1]);
      OpenConsistent(After(b, draws[..|draws| - 1]), draws[|draws| - 1]);
    }
  }

  /** Drawing one more number opens it on the board as it stood. */
  lemma AfterSnoc(b: Card, draws: seq<nat>, i: nat)
    requires Shaped(b) && i < |draws|
    ensures After(b, draws[..i + 1]) == Open(After(b, draws[..i]), draws[i])
  {
    assert draws[..i + 1][..i] == draws[..i];
  }

  /* ---------------------------------------------------------------------
     Part one: the first board to win
     --------------------------------------------------------------------- */

  predicate AllShaped(bs: seq<Card>) {
    forall k :: 0 <= k < |bs| ==> Shaped(bs[k])
  }

  /** Where a game stands: a board has won with this score, or the boards
      are still being played. */
  datatype Round = Won(score: nat) | Playing(boards: seq<Card>)

  /** One draw of `play`: the boards before `j` open the number in turn,
      and the first of them to win ends the game. */
  function PlayRound(bs: seq<Card>, n: nat, j: nat): (r: Round)
    requires AllShaped(bs) && j <= |bs|
    ensures r.Playing? ==> |r.boards| == |bs| && AllShaped(r.boards)
  {
    if j == 0 then Playing(bs)
    else
      match PlayRound(bs, n, j - 1)
      case Won(s) => Won(s)
      case Playing(cur) =>
        var b := Open(cur[j - 1], n);
        if Winning(b) then Won(Score(b, n)) else Playing(cur[j - 1 := b])
  }

  /** The first `i` draws of `play`. */
  function PlayRounds(bs: seq<Card>, nums: seq<nat>, i: nat): (r: Round)
    requires AllShaped(bs) && i <= |nums|
    ensures r.Playing? ==> |r.boards| == |bs| && AllShaped(r.boards)
  {
    if i == 0 then Playing(bs)
    else
      match PlayRounds(bs, nums, i - 1)
      case Won(s) => Won(s)
      case Playing(cur) => PlayRound(cur, nums[i - 1], |cur|)
  }

  /** `play`: the score of the first board to win; `None` where the source
      panics because no board ever wins. */
  function Play(bs: seq<Card>, nums: seq<nat>): Option<nat>
    requires AllShaped(bs)
  {
    match PlayRounds(bs, nums, |nums|)
    case Won(s) => Some(s)
    case Playing(_) => None
  }

  /** Board `j` has won once the first `i + 1` numbers are drawn. */
  predicate WinsAt(bs: seq<Card>, nums: seq<nat>, i: nat, j: nat)
    requires AllShaped(bs) && i < |nums| && j < |bs|
  {
    Winning(After(bs[j], nums[..i + 1]))
  }

  /** The first board before `j` to have won after draw `i`. */
  function FirstWinnerIn(bs: seq<Card>, nums: seq<nat>, i: nat, j: nat): (r: Option<nat>)
    requires AllShaped(bs) && i < |nums| && j <= |bs|
    ensures r.Some? ==> r.value < j
  {
    if j == 0 then None
    else
      match FirstWinnerIn(bs, nums, i, j - 1)
      case Some(k) => Some(k)
      case None => if WinsAt(bs, nums, i, j - 1) then Some(j - 1) else None
  }

  /** The first draw before `i` after which some board has won, with the
      first such board. */
  function FirstWin(bs: seq<Card>, nums: seq<nat>, i: nat): (r: Option<(nat, nat)>)
    requires AllShaped(bs) && i <= |nums|
    ensures r.Some? ==> r.value.0 < i && r.value.1 < |bs|
  {
    if i == 0 then None
    else
      match FirstWin(bs, nums, i - 1)
      case Some(w) => Some(w)
      case None =>
        match FirstWinnerIn(bs, nums, i - 1, |bs|)
        case Some(k) => Some((i - 1, k))
        case None => None
  }

  /** `FirstWinnerIn` finds a winner, and no board before it has won. */
  lemma {:induction false} FirstWinnerInIsFirst(bs: seq<Card>, nums: seq<nat>, i: nat, j: nat)
    requires AllShaped(bs) && i < |nums| && j <= |bs|
    ensures FirstWinnerIn(bs, nums, i, j).Some? ==>
              WinsAt(bs, nums, i, FirstWinnerIn(bs, nums, i, j).value) &&
              forall k :: 0 <= k < FirstWinnerIn(bs, nums, i, j).value ==> !WinsAt(bs, nums, i, k)
    ensures FirstWinnerIn(bs, nums, i, j).None? <==> forall k :: 0 <= k < j ==> !WinsAt(bs, nums, i, k)
  {
    if j > 0 {
      FirstWinnerInIsFirst(bs, nums, i, j - 1);
    }
  }

  /** `FirstWin` is the least winning pair in draw-then-board order, and it
      is missing exactly when no board has won by draw `i`. */
  lemma {:induction false} FirstWinIsFirst(bs: seq<Card>, nums: seq<nat>, i: nat)
    requires AllShaped(bs) && i <= |nums|
    ensures FirstWin(bs, nums, i).Some? ==>
              var (d, j) := FirstWin(bs, nums, i).value;
              && WinsAt(bs, nums, d, j)
              && (forall d', k :: 0 <= d' < d && 0 <= k < |bs| ==> !WinsAt(bs, nums, d', k))
              && (forall k :: 0 <= k < j ==> !WinsAt(bs, nums, d, k))
    ensures FirstWin(bs, nums, i).None? <==>
              forall d, k :: 0 <= d < i && 0 <= k < |bs| ==> !WinsAt(bs, nums, d, k)
  {
    if i > 0 {
      FirstWinIsFirst(bs, nums, i - 1);
      if FirstWin(bs, nums, i - 1).None? {
        FirstWinnerInIsFirst(bs, nums, i - 1, |bs|);
        if FirstWinnerIn(bs, nums, i - 1, |bs|).None? {
          assert forall d, k :: 0 <= d < i && 0 <= k < |bs| ==> !WinsAt(bs, nums, d, k) by {
            forall d, k | 0 <= d < i && 0 <= k < |bs|
              ensures !WinsAt(bs, nums, d, k)
            {
              if d == i - 1 {
                assert !WinsAt(bs, nums, i - 1, k);
              }
            }
          }
        }
      }
    }
  }

  /** Every board after the same draws. */
  function Boards(bs: seq<Card>, draws: seq<nat>): (r: seq<Card>)
    requires AllShaped(bs)
    ensures |r| == |bs| && AllShaped(r)
  {
    seq(|bs|, k requires 0 <= k < |bs| => After(bs[k], draws))
  }

  /** The boards part-way through draw `i`: those before `j` have opened it. */
  function Progress(bs: seq<Card>, nums: seq<nat>, i: nat, j: nat): (r: seq<Card>)
    requires AllShaped(bs) && i < |nums|
    ensures |r| == |bs| && AllShaped(r)
  {
    seq(|bs|, k requires 0 <= k < |bs| => if k < j then After(bs[k], nums[..i + 1]) else After(bs[k], nums[..i]))
  }

  /** One draw of `play`, from boards that have not yet won: it ends with the
      first board to win after the draw, and otherwise leaves every board
      opened. */
  lemma {:induction false} PlayRoundFirstWinner(bs: seq<Card>, nums: seq<nat>, i: nat, j: nat)
    requires AllShaped(bs) && i < |nums| && j <= |bs|
    ensures PlayRound(Boards(bs, nums[..i]), nums[i], j) ==
            match FirstWinnerIn(bs, nums, i, j)
            case Some(k) => Won(Score(After(bs[k], nums[..i + 1]), nums[i]))
            case None => Playing(Progress(bs, nums, i, j))
  {
    if j == 0 {
      assert Progress(bs, nums, i, 0) == Boards(bs, nums[..i]);
    } else {
      var cur := Boards(bs, nums[..i]);
      PlayRoundFirstWinner(bs, nums, i, j - 1);
      if FirstWinnerIn(bs, nums, i, j - 1).None? {
        ProgressStep(bs, nums, i, j - 1);
        var b := After(bs[j - 1], nums[..i + 1]);
        assert PlayRound(cur, nums[i], j) ==
               if Winning(b) then Won(Score(b, nums[i])) else Playing(Progress(bs, nums, i, j));
      }
    }
  }

  /** Board `j` opening draw `i` moves the progress on by one board. */
  lemma ProgressStep(bs: seq<Card>, nums: seq<nat>, i: nat, j: nat)
    requires AllShaped(bs) && i < |nums| && j < |bs|
    ensures Progress(bs, nums, i, j)[j] == After(bs[j], nums[..i])
    ensures Open(After(bs[j], nums[..i]), nums[i]) == After(bs[j], nums[..i + 1])
    ensures Progress(bs, nums, i, j)[j := After(bs[j], nums[..i + 1])] == Progress(bs, nums, i, j + 1)
  {
    AfterSnoc(bs[j], nums, i);
    var cur, next := Progress(bs, nums, i, j), Progress(bs, nums, i, j + 1);
    assert forall k :: 0 <= k < |bs| ==> cur[j := next[j]][k] == next[k];
  }

  /** The first `i` draws of `play` end with the first win, or leave every
      board after those draws. */
  predicate PlaysFirstWin(bs: seq<Card>, nums: seq<nat>, i: nat)
    requires AllShaped(bs) && i <= |nums|
  {
    PlayRounds(bs, nums, i) ==
    match FirstWin(bs, nums, i)
    case Some(w) => Won(Score(After(bs[w.1], nums[..w.0 + 1]), nums[w.0]))
    case None => Playing(Boards(bs, nums[..i]))
  }

  /** Every prefix of the draws of `play` ends with the first win, or leaves
      every board after those draws. */
  lemma {:induction false} PlayRoundsFirstWin(bs: seq<Card>, nums: seq<nat>, i: nat)
    requires AllShaped(bs) && i <= |nums|
    ensures PlaysFirstWin(bs, nums, i)
  {
    if i == 0 {
      assert Boards(bs, nums[..0]) == bs;
    } else {
      PlayRoundsFirstWin(bs, nums, i - 1);
      PlayRoundsNext(bs, nums, i - 1);
    }
  }

  /** Draw `d` of `play` keeps `PlaysFirstWin`. */
  lemma PlayRoundsNext(bs: seq<Card>, nums: seq<nat>, d: nat)
    requires AllShaped(bs) && d < |nums| && PlaysFirstWin(bs, nums, d)
    ensures PlaysFirstWin(bs, nums, d + 1)
  {
    if FirstWin(bs, nums, d).None? {
      PlayRoundFirstWinner(bs, nums, d, |bs|);
      assert Progress(bs, nums, d, |bs|) == Boards(bs, nums[..d + 1]);
    }
  }


  /** `play` scores the board that wins first: at the earliest draw, the
      earliest board; it gives nothing exactly when no board ever wins. */
  lemma PlayFindsFirstWin(bs: seq<Card>, nums: seq<nat>)
    requires AllShaped(bs)
    ensures Play(bs, nums) ==
            match FirstWin(bs, nums, |nums|)
            case Some(w) => Some(Score(After(bs[w.1], nums[..w.0 + 1]), nums[w.0]))
            case None => None
  {
    PlayRoundsFirstWin(bs, nums, |nums|);
  }

  /** The boards as `play` leaves them: when board `k` is the first to win,
      at draw `d`, the boards up to and including `k` have opened draw `d`
      and the others stop before it; when no board wins, every board has
      opened every draw. */
  function PlayBoards(bs: seq<Card>, nums: seq<nat>): (r: seq<Card>)
    requires AllShaped(bs)
    ensures |r| == |bs| && AllShaped(r)
  {
    match FirstWin(bs, nums, |nums|)
    case Some(w) => Progress(bs, nums, w.0, w.1 + 1)
    case None => Boards(bs, nums)
  }

  /** Board `j` winning at draw `i`, when no board has won at an earlier
      draw and no board before `j` wins at draw `i`, is the first win of the
      game. */
  lemma FirstWinAt(bs: seq<Card>, nums: seq<nat>, i: nat, j: nat)
    requires AllShaped(bs) && i < |nums| && j < |bs|
    requires FirstWin(bs, nums, i).None? && FirstWinnerIn(bs, nums, i, j).None? && WinsAt(bs, nums, i, j)
    ensures FirstWin(bs, nums, |nums|) == Some((i, j))
  {
    FirstWinIsFirst(bs, nums, i);
    FirstWinnerInIsFirst(bs, nums, i, j);
    FirstWinIsFirst(bs, nums, |nums|);
    var (d, k) := FirstWin(bs, nums, |nums|).value;
    // neither draw can come before the other, nor either board at draw `i`
    assert d == i;
    assert k == j;
  }

  /* ---------------------------------------------------------------------
     Part two: the board left to win last
     --------------------------------------------------------------------- */

  /** Every entry of `ks` indexes one of `n` boards. */
  predicate Indices(ks: seq<nat>, n: nat) {
    forall t :: 0 <= t < |ks| ==> ks[t] < n
  }

  /** `(0..n).collect()`. */
  function Range(n: nat): (r: seq<nat>)
    ensures |r| == n && forall t :: 0 <= t < n ==> r[t] == t
  {
    seq(n, t => t)
  }

  /** The boards and the `winners` and `remains` lists of `play_part2` once
      the boards listed in `playing[..t]` have opened `n`. */
  datatype Sorted = Sorted(boards: seq<Card>, winners: seq<nat>, remains: seq<nat>)

  function SortRound(bs: seq<Card>, n: nat, playing: seq<nat>, t: nat): (r: Sorted)
    requires AllShaped(bs) && Indices(playing, |bs|) && t <= |playing|
    ensures |r.boards| == |bs| && AllShaped(r.boards)
    ensures Indices(r.winners, |bs|) && Indices(r.remains, |bs|)
  {
    if t == 0 then Sorted(bs, [], [])
    else
      var s := SortRound(bs, n, playing, t - 1);
      var k := playing[t - 1];
      var b := Open(s.boards[k], n);
      if Winning(b) then Sorted(s.boards[k := b], s.winners + [k], s.remains)
      else Sorted(s.boards[k := b], s.winners, s.remains + [k])
  }

  /** Where `play_part2` stands: it has scored the last board, or these
      boards are still playing. */
  datatype Standing = Last(score: nat) | Left(boards: seq<Card>, playing: seq<nat>)

  /** One draw `n` of `play_part2`: the boards still playing open it; a
      draw that leaves no board playing and exactly one winner ends the game
      with that winner's score, otherwise the boards not won play on. */
  function NextRound(st: Standing, n: nat): (r: Standing)
    requires st.Left? ==> AllShaped(st.boards) && Indices(st.playing, |st.boards|)
    ensures r.Left? ==> st.Left? && |r.boards| == |st.boards| && AllShaped(r.boards) && Indices(r.playing, |r.boards|)
  {
    match st
    case Last(v) => Last(v)
    case Left(cur, playing) =>
      var s := SortRound(cur, n, playing, |playing|);
      if |s.remains| == 0 && |s.winners| == 1 then Last(Score(s.boards[s.winners[0]], n))
      else Left(s.boards, s.remains)
  }

  /** The first `i` draws of `play_part2`, from every board playing. */
  function LastRounds(bs: seq<Card>, nums: seq<nat>, i: nat): (r: Standing)
    requires AllShaped(bs) && i <= |nums|
    ensures r.Left? ==> |r.boards| == |bs| && AllShaped(r.boards) && Indices(r.playing, |bs|)
  {
    if i == 0 then Left(bs, Range(|bs|))
    else NextRound(LastRounds(bs, nums, i - 1), nums[i - 1])
  }

  /** `play_part2`: the score of the board that wins last; `None` where the
      source panics. */
  function PlayLast(bs: seq<Card>, nums: seq<nat>): Option<nat>
    requires AllShaped(bs)
  {
    match LastRounds(bs, nums, |nums|)
    case Last(v) => Some(v)
    case Left(_, _) => None
  }


  /** The first draw before `i` after which board `k` has won. */
  function WonBy(bs: seq<Card>, nums: seq<nat>, k: nat, i: nat): (r: Option<nat>)
    requires AllShaped(bs) && k < |bs| && i <= |nums|
    ensures r.Some? ==> r.value < i
  {
    if i == 0 then None
    else
      match WonBy(bs, nums, k, i - 1)
      case Some(d) => Some(d)
      case None => if WinsAt(bs, nums, i - 1, k) then Some(i - 1) else None
  }

  /** `WonBy` is the draw at which the board first wins, and it is missing
      exactly when the board has not won by draw `i`. */
  lemma {:induction false} WonByIsFirst(bs: seq<Card>, nums: seq<nat>, k: nat, i: nat)
    requires AllShaped(bs) && k < |bs| && i <= |nums|
    ensures WonBy(bs, nums, k, i).Some? ==>
              WinsAt(bs, nums, WonBy(bs, nums, k, i).value, k) &&
              forall d :: 0 <= d < WonBy(bs, nums, k, i).value ==> !WinsAt(bs, nums, d, k)
    ensures WonBy(bs, nums, k, i).None? <==> forall d :: 0 <= d < i ==> !WinsAt(bs, nums, d, k)
  {
    if i > 0 {
      WonByIsFirst(bs, nums, k, i - 1);
    }
  }

  /** The draws board `k` has opened after `i` draws of `play_part2`: every
      one until it wins. */
  function Opened(bs: seq<Card>, nums: seq<nat>, k: nat, i: nat): (r: nat)
    requires AllShaped(bs) && k < |bs| && i <= |nums|
    ensures r <= i
  {
    match WonBy(bs, nums, k, i)
    case Some(d) => d + 1
    case None => i
  }

  /** Every board as `play_part2` leaves it after `i` draws. */
  function Stopped(bs: seq<Card>, nums: seq<nat>, i: nat): (r: seq<Card>)
    requires AllShaped(bs) && i <= |nums|
    ensures |r| == |bs| && AllShaped(r)
  {
    seq(|bs|, k requires 0 <= k < |bs| => After(bs[k], nums[..Opened(bs, nums, k, i)]))
  }

  /** The boards among the first `m` that have not won after `i` draws, in
      order. */
  function StillPlaying(bs: seq<Card>, nums: seq<nat>, i: nat, m: nat): (r: seq<nat>)
    requires AllShaped(bs) && i <= |nums| && m <= |bs|
    ensures Indices(r, m)
  {
    if m == 0 then []
    else StillPlaying(bs, nums, i, m - 1) + (if WonBy(bs, nums, m - 1, i).None? then [m - 1] else [])
  }

  /** The boards of `ks` that have won after draw `d`, in order. */
  function WinnersAt(bs: seq<Card>, nums: seq<nat>, d: nat, ks: seq<nat>): (r: seq<nat>)
    requires AllShaped(bs) && d < |nums| && Indices(ks, |bs|)
  {
    if ks == [] then []
    else
      var k := ks[|ks| - 1];
      WinnersAt(bs, nums, d, ks[..|ks| - 1]) + (if WinsAt(bs, nums, d, k) then [k] else [])
  }

  /** The boards of `ks` that have not won after draw `d`, in order. */
  function LosersAt(bs: seq<Card>, nums: seq<nat>, d: nat, ks: seq<nat>): (r: seq<nat>)
    requires AllShaped(bs) && d < |nums| && Indices(ks, |bs|)
  {
    if ks == [] then []
    else
      var k := ks[|ks| - 1];
      LosersAt(bs, nums, d, ks[..|ks| - 1]) + (if WinsAt(bs, nums, d, k) then [] else [k])
  }

  /** Board `k` is the last to win: it first wins at draw `d`, and every
      other board has won before. */
  predicate LastToWin(bs: seq<Card>, nums: seq<nat>, d: nat, k: nat)
    requires AllShaped(bs)
  {
    && d < |nums| && k < |bs|
    && WonBy(bs, nums, k, d).None? && WinsAt(bs, nums, d, k)
    && forall k' :: 0 <= k' < |bs| && k' != k ==> WonBy(bs, nums, k', d).Some?
  }

  /** The boards still playing are exactly those that have not won. */
  lemma {:induction false} StillPlayingMembers(bs: seq<Card>, nums: seq<nat>, i: nat, m: nat)
    requires AllShaped(bs) && i <= |nums| && m <= |bs|
    ensures forall k: nat {:trigger k in StillPlaying(bs, nums, i, m)} ::
              k in StillPlaying(bs, nums, i, m) <==> k < m && WonBy(bs, nums, k, i).None?
  {
    if m > 0 {
      StillPlayingMembers(bs, nums, i, m - 1);
    }
  }

  /** The boards still playing are listed in increasing order. */
  lemma {:induction false} StillPlayingIncreasing(bs: seq<Card>, nums: seq<nat>, i: nat, m: nat)
    requires AllShaped(bs) && i <= |nums| && m <= |bs|
    ensures forall s, t :: 0 <= s < t < |StillPlaying(bs, nums, i, m)| ==>
              StillPlaying(bs, nums, i, m)[s] < StillPlaying(bs, nums, i, m)[t]
  {
    if m > 0 {
      StillPlayingIncreasing(bs, nums, i, m - 1);
    }
  }

  /** The boards that have not won after draw `d` are the ones still playing
      after it. */
  lemma {:induction false} LosersAreStillPlaying(bs: seq<Card>, nums: seq<nat>, d: nat, m: nat)
    requires AllShaped(bs) && d < |nums| && m <= |bs|
    ensures LosersAt(bs, nums, d, StillPlaying(bs, nums, d, m)) == StillPlaying(bs, nums, d + 1, m)
  {
    if m > 0 {
      LosersAreStillPlaying(bs, nums, d, m - 1);
      var front, rest := StillPlaying(bs, nums, d, m - 1), StillPlaying(bs, nums, d + 1, m - 1);
      var k := m - 1;
      if WonBy(bs, nums, k, d).None? {
        var ks := front + [k];
        assert StillPlaying(bs, nums, d, m) == ks;
        assert ks[..|ks| - 1] == front && ks[|ks| - 1] == k;
        assert WonBy(bs, nums, k, d + 1).None? <==> !WinsAt(bs, nums, d, k);
      } else {
        assert front + [] == front && rest + [] == rest;
        assert StillPlaying(bs, nums, d, m) == front;
        assert WonBy(bs, nums, k, d + 1).Some?;
        assert StillPlaying(bs, nums, d + 1, m) == rest;
      }
    }
  }

  /** The winners of a draw are the listed boards that have won after it. */
  lemma {:induction false} WinnersMembers(bs: seq<Card>, nums: seq<nat>, d: nat, ks: seq<nat>)
    requires AllShaped(bs) && d < |nums| && Indices(ks, |bs|)
    ensures forall k {:trigger k in WinnersAt(bs, nums, d, ks)} ::
              k in WinnersAt(bs, nums, d, ks) <==> k in ks && WinsAt(bs, nums, d, k)
  {
    if ks != [] {
      WinnersMembers(bs, nums, d, ks[..|ks| - 1]);
      assert ks == ks[..|ks| - 1] + [ks[|ks| - 1]];
    }
  }

  lemma SoleWinnerIsLast(bs: seq<Card>, nums: seq<nat>, d: nat)
    requires AllShaped(bs) && d < |nums|
    requires StillPlaying(bs, nums, d + 1, |bs|) == []
    requires |WinnersAt(bs, nums, d, StillPlaying(bs, nums, d, |bs|))| == 1
    ensures LastToWin(bs, nums, d, WinnersAt(bs, nums, d, StillPlaying(bs, nums, d, |bs|))[0])
  {
    var playing := StillPlaying(bs, nums, d, |bs|);
    var ws := WinnersAt(bs, nums, d, playing);
    StillPlayingMembers(bs, nums, d, |bs|);
    WinnersMembers(bs, nums, d, playing);
    var w := ws[0];
    assert ws == [w];
    assert w in ws;
    forall k' | 0 <= k' < |bs| && k' != w
      ensures WonBy(bs, nums, k', d).Some?
    {
      OtherWonBefore(bs, nums, d, w, k');
    }
  }

  /** When draw `d` leaves no board playing and `w` is its only winner,
      every other board had won before it: had one not, it would have been
      a second winner. */
  lemma OtherWonBefore(bs: seq<Card>, nums: seq<nat>, d: nat, w: nat, k: nat)
    requires AllShaped(bs) && d < |nums| && k < |bs| && k != w
    requires StillPlaying(bs, nums, d + 1, |bs|) == []
    requires WinnersAt(bs, nums, d, StillPlaying(bs, nums, d, |bs|)) == [w]
    ensures WonBy(bs, nums, k, d).Some?
  {
    var playing := StillPlaying(bs, nums, d, |bs|);
    var after := StillPlaying(bs, nums, d + 1, |bs|);
    StillPlayingMembers(bs, nums, d, |bs|);
    StillPlayingMembers(bs, nums, d + 1, |bs|);
    var ws := WinnersAt(bs, nums, d, playing);
    WinnersMembers(bs, nums, d, playing);
    assert WonBy(bs, nums, k, d).None? ==> k in playing && k !in after;
    assert WonBy(bs, nums, k, d).None? ==> k in ws;
  }

  lemma LastDrawOf(bs: seq<Card>, nums: seq<nat>, d: nat, k: nat)
    requires AllShaped(bs) && LastToWin(bs, nums, d, k)
    ensures StillPlaying(bs, nums, d + 1, |bs|) == []
    ensures StillPlaying(bs, nums, d, |bs|) == [k]
    ensures WinnersAt(bs, nums, d, [k]) == [k]
  {
    NoneLeftAfterLast(bs, nums, d, k);
    OnlyLastPlaying(bs, nums, d, k);
    assert WonBy(bs, nums, k, d).None?;
    assert [k][..0] == [];
  }

  lemma NoneLeftAfterLast(bs: seq<Card>, nums: seq<nat>, d: nat, k: nat)
    requires AllShaped(bs) && LastToWin(bs, nums, d, k)
    ensures StillPlaying(bs, nums, d + 1, |bs|) == []
  {
    // board `k` wins at draw `d`, and every other board has won before it
    var e := d + 1;
    forall x | 0 <= x < |bs|
      ensures WonBy(bs, nums, x, e).Some?
    {
      if x != k {
        assert WonBy(bs, nums, x, d).Some?;
      }
    }
    NoneStillPlaying(bs, nums, e, |bs|);
  }

  /** No board is still playing once every board has won. */
  lemma {:induction false} NoneStillPlaying(bs: seq<Card>, nums: seq<nat>, i: nat, m: nat)
    requires AllShaped(bs) && i <= |nums| && m <= |bs|
    requires forall x :: 0 <= x < m ==> WonBy(bs, nums, x, i).Some?
    ensures StillPlaying(bs, nums, i, m) == []
  {
    if m > 0 {
      NoneStillPlaying(bs, nums, i, m - 1);
      assert StillPlaying(bs, nums, i, m) == [] + [];
    }
  }

  lemma OnlyLastPlaying(bs: seq<Card>, nums: seq<nat>, d: nat, k: nat)
    requires AllShaped(bs) && LastToWin(bs, nums, d, k)
    ensures StillPlaying(bs, nums, d, |bs|) == [k]
  {
    var before := StillPlaying(bs, nums, d, |bs|);
    StillPlayingMembers(bs, nums, d, |bs|);
    StillPlayingIncreasing(bs, nums, d, |bs|);
    assert WonBy(bs, nums, k, d).None?;
    assert k in before;
    // two increasing entries cannot both be `k`
    assert |before| > 1 ==> before[0] < before[1];
    forall t | 0 <= t < |before|
      ensures before[t] == k
    {
      assert before[t] in before;
    }
  }

  /** The boards of `cur` once those listed in `ks` have opened `n`. */
  function OpenedAll(cur: seq<Card>, n: nat, ks: seq<nat>): (r: seq<Card>)
    requires AllShaped(cur)
    ensures |r| == |cur| && AllShaped(r)
  {
    seq(|cur|, k requires 0 <= k < |cur| => if k in ks then Open(cur[k], n) else cur[k])
  }

  /** The boards of `ks` that win once they open `n`, in order. */
  function WinnersOf(cur: seq<Card>, n: nat, ks: seq<nat>): (r: seq<nat>)
    requires AllShaped(cur) && Indices(ks, |cur|)
  {
    if ks == [] then []
    else
      var k := ks[|ks| - 1];
      WinnersOf(cur, n, ks[..|ks| - 1]) + (if Winning(Open(cur[k], n)) then [k] else [])
  }

  /** The boards of `ks` that do not win once they open `n`, in order. */
  function LosersOf(cur: seq<Card>, n: nat, ks: seq<nat>): (r: seq<nat>)
    requires AllShaped(cur) && Indices(ks, |cur|)
  {
    if ks == [] then []
    else
      var k := ks[|ks| - 1];
      LosersOf(cur, n, ks[..|ks| - 1]) + (if Winning(Open(cur[k], n)) then [] else [k])
  }

  /** Sorting boards into winners and losers loses none and adds none. */
  lemma {:induction false} WinnersLosersPartition(cur: seq<Card>, n: nat, ks: seq<nat>)
    requires AllShaped(cur) && Indices(ks, |cur|)
    ensures multiset(WinnersOf(cur, n, ks)) + multiset(LosersOf(cur, n, ks)) == multiset(ks)
  {
    if ks != [] {
      var front, k := ks[..|ks| - 1], ks[|ks| - 1];
      WinnersLosersPartition(cur, n, front);
      assert ks == front + [k];
      var ws, ls := WinnersOf(cur, n, front), LosersOf(cur, n, front);
      if Winning(Open(cur[k], n)) {
        assert WinnersOf(cur, n, ks) == ws + [k] && LosersOf(cur, n, ks) == ls;
      } else {
        assert WinnersOf(cur, n, ks) == ws && LosersOf(cur, n, ks) == ls + [k];
      }
    }
  }

  /** No board is listed twice. */
  predicate Distinct(ks: seq<nat>) {
    forall s, t :: 0 <= s < t < |ks| ==> ks[s] != ks[t]
  }

  /** The inner loop of `play_part2` opens the number on every board listed
      and sorts them, in order, into those that have won and those that
      have not. */
  lemma {:induction false} SortRoundSplits(cur: seq<Card>, n: nat, playing: seq<nat>, t: nat)
    requires AllShaped(cur) && Indices(playing, |cur|) && Distinct(playing) && t <= |playing|
    ensures SortRound(cur, n, playing, t) ==
            Sorted(OpenedAll(cur, n, playing[..t]), WinnersOf(cur, n, playing[..t]), LosersOf(cur, n, playing[..t]))
  {
    if t == 0 {
      assert OpenedAll(cur, n, playing[..0]) == cur;
    } else {
      SortRoundSplits(cur, n, playing, t - 1);
      SortRoundSplitsStep(cur, n, playing, t);
    }
  }

  /** One more board of the inner loop of `play_part2` keeps the split. */
  lemma SortRoundSplitsStep(cur: seq<Card>, n: nat, playing: seq<nat>, t: nat)
    requires AllShaped(cur) && Indices(playing, |cur|) && Distinct(playing) && 0 < t <= |playing|
    requires SortRound(cur, n, playing, t - 1) ==
             Sorted(OpenedAll(cur, n, playing[..t - 1]), WinnersOf(cur, n, playing[..t - 1]), LosersOf(cur, n, playing[..t - 1]))
    ensures SortRound(cur, n, playing, t) ==
            Sorted(OpenedAll(cur, n, playing[..t]), WinnersOf(cur, n, playing[..t]), LosersOf(cur, n, playing[..t]))
  {
    var k := playing[t - 1];
    var front, upto := playing[..t - 1], playing[..t];
    assert upto == front + [k];
    LastNotBefore(playing, t);
    var prev, next := OpenedAll(cur, n, front), OpenedAll(cur, n, upto);
    OpenedAllSnoc(cur, n, front, k);
    var ws, ls := WinnersOf(cur, n, front), LosersOf(cur, n, front);
    SortRoundNext(cur, n, playing, t, prev, ws, ls, cur[k], next);
    SplitSnoc(cur, n, front, k);
  }

  /** In a list without repeats, an entry does not occur before itself. */
  lemma LastNotBefore(playing: seq<nat>, t: nat)
    requires Distinct(playing) && 0 < t <= |playing|
    ensures playing[t - 1] !in playing[..t - 1]
  {
    var front := playing[..t - 1];
    forall u | 0 <= u < |front|
      ensures front[u] != playing[t - 1]
    {
      assert playing[u] != playing[t - 1];
    }
  }

  /** One more board sorted into the winners or the losers. */
  lemma SplitSnoc(cur: seq<Card>, n: nat, ks: seq<nat>, k: nat)
    requires AllShaped(cur) && Indices(ks, |cur|) && k < |cur|
    ensures WinnersOf(cur, n, ks + [k]) == if Winning(Open(cur[k], n)) then WinnersOf(cur, n, ks) + [k] else WinnersOf(cur, n, ks)
    ensures LosersOf(cur, n, ks + [k]) == if Winning(Open(cur[k], n)) then LosersOf(cur, n, ks) else LosersOf(cur, n, ks) + [k]
  {
    var up := ks + [k];
    assert up[..|up| - 1] == ks && up[|up| - 1] == k;
    var ws, ls := WinnersOf(cur, n, ks), LosersOf(cur, n, ks);
    assert ws + [] == ws && ls + [] == ls;
  }

  /** Opening the number on one more board that had not opened it. */
  lemma OpenedAllSnoc(cur: seq<Card>, n: nat, ks: seq<nat>, k: nat)
    requires AllShaped(cur) && k < |cur| && k !in ks
    ensures OpenedAll(cur, n, ks)[k] == cur[k]
    ensures OpenedAll(cur, n, ks)[k := Open(cur[k], n)] == OpenedAll(cur, n, ks + [k])
  {
    var prev, next := OpenedAll(cur, n, ks), OpenedAll(cur, n, ks + [k]);
    forall j | 0 <= j < |cur|
      ensures prev[k := Open(cur[k], n)][j] == next[j]
    {
    }
  }

  /** One more board of `play_part2`'s inner loop, from a known state. */
  lemma SortRoundNext(bs: seq<Card>, n: nat, playing: seq<nat>, t: nat,
                      boards: seq<Card>, ws: seq<nat>, ls: seq<nat>, c: Card, next: seq<Card>)
    requires AllShaped(bs) && Indices(playing, |bs|) && 0 < t <= |playing| && Shaped(c)
    requires SortRound(bs, n, playing, t - 1) == Sorted(boards, ws, ls)
    requires boards[playing[t - 1]] == c && boards[playing[t - 1] := Open(c, n)] == next
    ensures SortRound(bs, n, playing, t) ==
            if Winning(Open(c, n)) then Sorted(next, ws + [playing[t - 1]], ls)
            else Sorted(next, ws, ls + [playing[t - 1]])
  {
    SortRoundUnfold(bs, n, playing, t);
  }

  /** One more board of `play_part2`'s inner loop. */
  lemma SortRoundUnfold(bs: seq<Card>, n: nat, playing: seq<nat>, t: nat)
    requires AllShaped(bs) && Indices(playing, |bs|) && 0 < t <= |playing|
    ensures var s := SortRound(bs, n, playing, t - 1);
            var k := playing[t - 1];
            var b := Open(s.boards[k], n);
            SortRound(bs, n, playing, t) ==
            if Winning(b) then Sorted(s.boards[k := b], s.winners + [k], s.remains)
            else Sorted(s.boards[k := b], s.winners, s.remains + [k])
  {
  }

  /** A board still playing before draw `d` opens it from where it stopped. */
  lemma StoppedOpens(bs: seq<Card>, nums: seq<nat>, d: nat, k: nat)
    requires AllShaped(bs) && d < |nums| && k < |bs| && WonBy(bs, nums, k, d).None?
    ensures Open(Stopped(bs, nums, d)[k], nums[d]) == After(bs[k], nums[..d + 1])
  {
    AfterSnoc(bs[k], nums, d);
  }

  /** Sorting the boards still playing at draw `d` is sorting them by
      whether they have won after it. */
  lemma {:induction false} SortedAtDraw(bs: seq<Card>, nums: seq<nat>, d: nat, ks: seq<nat>)
    requires AllShaped(bs) && d < |nums| && Indices(ks, |bs|)
    requires forall t :: 0 <= t < |ks| ==> WonBy(bs, nums, ks[t], d).None?
    ensures WinnersOf(Stopped(bs, nums, d), nums[d], ks) == WinnersAt(bs, nums, d, ks)
    ensures LosersOf(Stopped(bs, nums, d), nums[d], ks) == LosersAt(bs, nums, d, ks)
  {
    if ks != [] {
      SortedAtDraw(bs, nums, d, ks[..|ks| - 1]);
      StoppedOpens(bs, nums, d, ks[|ks| - 1]);
    }
  }

  /** Once every board still playing has opened draw `d`, the boards stand
      as they stop after it. */
  lemma OpenedAllDone(bs: seq<Card>, nums: seq<nat>, d: nat)
    requires AllShaped(bs) && d < |nums|
    ensures OpenedAll(Stopped(bs, nums, d), nums[d], StillPlaying(bs, nums, d, |bs|)) == Stopped(bs, nums, d + 1)
  {
    var playing := StillPlaying(bs, nums, d, |bs|);
    StillPlayingMembers(bs, nums, d, |bs|);
    forall k | 0 <= k < |bs|
      ensures OpenedAll(Stopped(bs, nums, d), nums[d], playing)[k] == Stopped(bs, nums, d + 1)[k]
    {
      if k in playing {
        StoppedOpens(bs, nums, d, k);
        assert Opened(bs, nums, k, d + 1) == d + 1;
      } else {
        assert Opened(bs, nums, k, d + 1) == Opened(bs, nums, k, d);
      }
    }
  }


  /** A whole draw of `play_part2`: the boards still playing open it, the
      winners are those that have won after it, and the others play on. */
  lemma DrawSorts(bs: seq<Card>, nums: seq<nat>, d: nat)
    requires AllShaped(bs) && d < |nums|
    ensures var playing := StillPlaying(bs, nums, d, |bs|);
            SortRound(Stopped(bs, nums, d), nums[d], playing, |playing|) ==
            Sorted(Stopped(bs, nums, d + 1), WinnersAt(bs, nums, d, playing), StillPlaying(bs, nums, d + 1, |bs|))
  {
    var playing := StillPlaying(bs, nums, d, |bs|);
    var cur := Stopped(bs, nums, d);
    assert Distinct(playing) by {
      StillPlayingIncreasing(bs, nums, d, |bs|);
    }
    assert playing[..|playing|] == playing;
    SortRoundSplits(cur, nums[d], playing, |playing|);
    assert forall t :: 0 <= t < |playing| ==> WonBy(bs, nums, playing[t], d).None? by {
      StillPlayingMembers(bs, nums, d, |bs|);
      forall t | 0 <= t < |playing|
        ensures WonBy(bs, nums, playing[t], d).None?
      {
        assert playing[t] in playing;
      }
    }
    SortedAtDraw(bs, nums, d, playing);
    OpenedAllDone(bs, nums, d);
    LosersAreStillPlaying(bs, nums, d, |bs|);
  }

  /** Before the first draw every board is playing. */
  lemma {:induction false} StillPlayingAtStart(bs: seq<Card>, nums: seq<nat>, m: nat)
    requires AllShaped(bs) && m <= |bs|
    ensures StillPlaying(bs, nums, 0, m) == Range(m)
  {
    if m > 0 {
      StillPlayingAtStart(bs, nums, m - 1);
    }
  }

  /** Before the first draw every board is as dealt. */
  lemma StoppedAtStart(bs: seq<Card>, nums: seq<nat>)
    requires AllShaped(bs)
    ensures Stopped(bs, nums, 0) == bs
  {
    assert nums[..0] == [];
  }

  /** The score of board `k` when it wins at draw `d`. */
  function LastScore(bs: seq<Card>, nums: seq<nat>, d: nat, k: nat): nat
    requires AllShaped(bs) && d < |nums| && k < |bs|
  {
    Score(After(bs[k], nums[..d + 1]), nums[d])
  }

  /** At most one board wins last, at one draw. */
  lemma LastToWinUnique(bs: seq<Card>, nums: seq<nat>, d: nat, k: nat, d': nat, k': nat)
    requires AllShaped(bs) && LastToWin(bs, nums, d, k) && LastToWin(bs, nums, d', k')
    ensures d == d' && k == k'
  {
    WonByIsFirst(bs, nums, k, d + 1);
    WonByIsFirst(bs, nums, k', d' + 1);
    WonByIsFirst(bs, nums, k, d);
    WonByIsFirst(bs, nums, k', d');
    if k != k' {
      // each would have won before the other
      assert WonBy(bs, nums, k', d).Some? && WonBy(bs, nums, k, d').Some?;
      WonByIsFirst(bs, nums, k', d);
      WonByIsFirst(bs, nums, k, d');
      assert false;
    }
  }

  /** No board has won last within the first `i` draws. */
  predicate NoLastBy(bs: seq<Card>, nums: seq<nat>, i: nat)
    requires AllShaped(bs)
  {
    forall d: nat, k: nat :: d < i && k < |bs| ==> !LastToWin(bs, nums, d, k)
  }

  /** After `i` draws `play_part2` has scored the board that wins last if it
      has won by then, and otherwise every board stands as it stopped, with
      those not yet won still playing. */
  ghost predicate StandsAfter(bs: seq<Card>, nums: seq<nat>, i: nat)
    requires AllShaped(bs) && i <= |nums|
  {
    ScoredLast(bs, nums, i) && (NoLastBy(bs, nums, i) ==> StillLeft(bs, nums, i))
  }

  /** After `i` draws `play_part2` has scored the board that won last, if
      one has. */
  ghost predicate ScoredLast(bs: seq<Card>, nums: seq<nat>, i: nat)
    requires AllShaped(bs) && i <= |nums|
  {
    forall d: nat, k: nat :: d < i && LastToWin(bs, nums, d, k) ==>
      LastRounds(bs, nums, i) == Last(LastScore(bs, nums, d, k))
  }

  /** After `i` draws every board of `play_part2` stands as it stopped, and
      those not yet won are still playing. */
  predicate StillLeft(bs: seq<Card>, nums: seq<nat>, i: nat)
    requires AllShaped(bs) && i <= |nums|
  {
    LastRounds(bs, nums, i) == Left(Stopped(bs, nums, i), StillPlaying(bs, nums, i, |bs|))
  }

  /** `play_part2` stands after every draw as the reference says. */
  lemma {:induction false} LastRoundsState(bs: seq<Card>, nums: seq<nat>, i: nat)
    requires AllShaped(bs) && i <= |nums|
    ensures StandsAfter(bs, nums, i)
  {
    if i == 0 {
      LastRoundsStart(bs, nums);
    } else {
      var d := i - 1;
      LastRoundsState(bs, nums, d);
      LastRoundsNext(bs, nums, d);
    }
  }

  /** Before the first draw every board of `play_part2` is playing, as dealt. */
  lemma LastRoundsStart(bs: seq<Card>, nums: seq<nat>)
    requires AllShaped(bs)
    ensures StandsAfter(bs, nums, 0)
  {
    StillPlayingAtStart(bs, nums, |bs|);
    StoppedAtStart(bs, nums);
  }

  /** One more draw of `play_part2`. */
  lemma LastRoundsNext(bs: seq<Card>, nums: seq<nat>, d: nat)
    requires AllShaped(bs) && d < |nums| && StandsAfter(bs, nums, d)
    ensures StandsAfter(bs, nums, d + 1)
  {
    if NoLastBy(bs, nums, d) {
      assert StillLeft(bs, nums, d);
      LastDrawScores(bs, nums, d);
      LastDrawLeaves(bs, nums, d);
    } else {
      LastRoundsOver(bs, nums, d);
    }
  }

  /** Once the last board has won, `play_part2` keeps its score. */
  lemma LastRoundsOver(bs: seq<Card>, nums: seq<nat>, d: nat)
    requires AllShaped(bs) && d < |nums| && StandsAfter(bs, nums, d) && !NoLastBy(bs, nums, d)
    ensures StandsAfter(bs, nums, d + 1)
  {
    var e: nat, k: nat :| e < d && k < |bs| && LastToWin(bs, nums, e, k);
    assert LastRounds(bs, nums, d) == Last(LastScore(bs, nums, e, k));
    LastRoundsUnfold(bs, nums, d);
    forall e': nat, k': nat | e' <= d && LastToWin(bs, nums, e', k')
      ensures LastRounds(bs, nums, d + 1) == Last(LastScore(bs, nums, e', k'))
    {
      LastToWinUnique(bs, nums, e, k, e', k');
    }
    assert !NoLastBy(bs, nums, d + 1);
  }

  /** Draw `d` of `play_part2` is one more round. */
  lemma LastRoundsUnfold(bs: seq<Card>, nums: seq<nat>, d: nat)
    requires AllShaped(bs) && d < |nums|
    ensures LastRounds(bs, nums, d + 1) == NextRound(LastRounds(bs, nums, d), nums[d])
  {
  }

  /** The draw at which the last board wins scores it. */
  lemma LastDrawScores(bs: seq<Card>, nums: seq<nat>, d: nat)
    requires AllShaped(bs) && d < |nums|
    requires NoLastBy(bs, nums, d) && StillLeft(bs, nums, d)
    ensures ScoredLast(bs, nums, d + 1)
  {
    forall d': nat, k: nat | d' <= d && LastToWin(bs, nums, d', k)
      ensures LastRounds(bs, nums, d + 1) == Last(LastScore(bs, nums, d', k))
    {
      LastDrawIs(bs, nums, d, d', k);
      LastDrawScore(bs, nums, d, k);
    }
  }

  /** When no board has won last before draw `d`, one that wins last by
      then does so at `d`. */
  lemma LastDrawIs(bs: seq<Card>, nums: seq<nat>, d: nat, d': nat, k: nat)
    requires AllShaped(bs) && NoLastBy(bs, nums, d) && d' <= d && LastToWin(bs, nums, d', k)
    ensures d' == d
  {
  }

  /** A draw at which no board wins last leaves the others playing. */
  lemma LastDrawLeaves(bs: seq<Card>, nums: seq<nat>, d: nat)
    requires AllShaped(bs) && d < |nums| && StillLeft(bs, nums, d)
    ensures NoLastBy(bs, nums, d + 1) ==> StillLeft(bs, nums, d + 1)
  {
    if NoLastBy(bs, nums, d + 1) {
      var playing := StillPlaying(bs, nums, d, |bs|);
      var s := SortRound(Stopped(bs, nums, d), nums[d], playing, |playing|);
      var ws, after := WinnersAt(bs, nums, d, playing), StillPlaying(bs, nums, d + 1, |bs|);
      LastRoundsUnfold(bs, nums, d);
      assert LastRounds(bs, nums, d + 1) ==
             if |s.remains| == 0 && |s.winners| == 1 then Last(Score(s.boards[s.winners[0]], nums[d]))
             else Left(s.boards, s.remains);
      assert s == Sorted(Stopped(bs, nums, d + 1), ws, after) by {
        DrawSorts(bs, nums, d);
      }
      if after == [] && |ws| == 1 {
        SoleWinnerIsLast(bs, nums, d);
        assert false;
      }
    }
  }

  /** The draw at which board `k` wins last ends `play_part2` with its score. */
  lemma LastDrawScore(bs: seq<Card>, nums: seq<nat>, d: nat, k: nat)
    requires AllShaped(bs) && d < |nums| && StillLeft(bs, nums, d) && LastToWin(bs, nums, d, k)
    ensures LastRounds(bs, nums, d + 1) == Last(LastScore(bs, nums, d, k))
  {
    var playing := StillPlaying(bs, nums, d, |bs|);
    LastRoundsUnfold(bs, nums, d);
    assert SortRound(Stopped(bs, nums, d), nums[d], playing, |playing|) == Sorted(Stopped(bs, nums, d + 1), [k], []) by {
      DrawSorts(bs, nums, d);
      LastDrawOf(bs, nums, d, k);
    }
    NextRoundEnds(Stopped(bs, nums, d), nums[d], playing, Stopped(bs, nums, d + 1), k);
    assert Stopped(bs, nums, d + 1)[k] == After(bs[k], nums[..d + 1]) by {
      assert Opened(bs, nums, k, d + 1) == d + 1;
    }
  }

  /** A round that leaves one winner and no board playing ends the game
      with the winner's score. */
  lemma NextRoundEnds(cur: seq<Card>, n: nat, playing: seq<nat>, boards: seq<Card>, k: nat)
    requires AllShaped(cur) && Indices(playing, |cur|) && k < |boards|
    requires SortRound(cur, n, playing, |playing|) == Sorted(boards, [k], [])
    ensures NextRound(Left(cur, playing), n) == Last(Score(boards[k], n))
  {
  }



  /** `play_part2` scores the board that wins last, at the draw at which it
      wins, and panics exactly when no board wins last. */
  lemma PlayLastFindsLastWinner(bs: seq<Card>, nums: seq<nat>)
    requires AllShaped(bs)
    ensures PlayLast(bs, nums).Some? <==> exists d: nat, k: nat :: LastToWin(bs, nums, d, k)
    ensures forall d: nat, k: nat :: LastToWin(bs, nums, d, k) ==>
              PlayLast(bs, nums) == Some(LastScore(bs, nums, d, k))
  {
    LastRoundsState(bs, nums, |nums|);
    if !NoLastBy(bs, nums, |nums|) {
      var d: nat, k: nat :| d < |nums| && k < |bs| && LastToWin(bs, nums, d, k);
    }
  }
}
