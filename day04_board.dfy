/** Day 4, the board as the program keeps it: 25 cells and the row and
    column masks as fixed-size arrays, with `open` setting mask bits in
    place. Every method is proved against the value model of module
    `Day04`. */
module Day04Board {
  import opened Common
  import opened Day04
  import opened Day04Parse

  /** `Board`: `board: [u8; 25]`, `rows: [u8; 5]`, `cols: [u8; 5]`. */
  class Board {
    const cells: array<nat>
    const rows: array<bv8>
    const cols: array<bv8>
    ghost const Repr: set<object>

    ghost predicate Valid() {
      && cells.Length == CellCount && rows.Length == Size && cols.Length == Size
      && rows != cols
      && Repr == {cells as object, rows, cols}
    }

    /** The board as a value. */
    ghost function View(): (c: Card)
      requires Valid()
      reads Repr
      ensures Shaped(c)
    {
      Card(cells[..], rows[..], cols[..])
    }

    /** `Board::default()`: every cell 0 and nothing marked. */
    constructor ()
      ensures Valid() && fresh(Repr)
      ensures View() == Blank(seq(CellCount, _ => 0))
    {
      var c := new nat[CellCount](_ => 0);
      var rs := new bv8[Size](_ => 0);
      var cs := new bv8[Size](_ => 0);
      cells, rows, cols := c, rs, cs;
      Repr := {c as object, rs, cs};
      new;
      assert rows[..] == [0, 0, 0, 0, 0] && cols[..] == [0, 0, 0, 0, 0];
    }

    /** `Board::from_str`: start from the default board, keep the
        non-empty lines, which must be five, and fill row `row` from the
        five non-empty pieces of its line, each read as a `u8`; the first
        line or piece that does not fit fails the whole board. */
    static method FromStr(s: string) returns (r: Result<Board>)
      ensures r.Ok? <==> ParseCard(s).Ok?
      ensures r.Ok? ==> fresh(r.value.Repr) && r.value.Valid() && r.value.View() == ParseCard(s).value
    {
      var lines := NonEmpty(Lines(s));
      if |lines| != Size {
        return Err;
      }
      r := FromRows(lines);
    }

    /** The row loop of `Board::from_str` over its five lines. */
    static method FromRows(lines: seq<string>) returns (r: Result<Board>)
      requires |lines| == Size
      ensures r.Ok? <==> ParseRows(lines).Ok?
      ensures r.Ok? ==> fresh(r.value.Repr) && r.value.Valid() && r.value.View() == Blank(ParseRows(lines).value)
    {
      var b := new Board();
      ParseRowsOk(lines);
      ghost var zeros := b.rows[..];
      assert b.cols[..] == zeros;
      ghost var read: seq<nat> := [];
      var row := 0;
      while row < Size
        invariant 0 <= row <= Size
        invariant b.Valid() && fresh(b.Repr)
        invariant b.rows[..] == zeros && b.cols[..] == zeros
        invariant ParseRows(lines[..row]) == Ok(read) && |read| == Size * row
        invariant forall i :: 0 <= i < |read| ==> b.cells[i] == read[i]
      {
        assert lines[..row + 1] == lines[..row] + [lines[row]];
        var ok := b.FillRow(lines[row], row, read);
        if !ok {
          return Err;
        }
        ParseRowsSnoc(lines[..row], lines[row]);
        read := read + ParseRow(lines[row]).value;
        row := row + 1;
      }
      assert lines[..row] == lines;
      assert b.cells[..] == read;
      return Ok(b);
    }

    /** One pass of the row loop of `Board::from_str`: the line must have
        five non-empty pieces, and cell `5 * row + col` gets the `col`-th,
        read as a `u8`, until a piece is not one; the cells of the rows
        above, already `read`, stay as they are. */
    method FillRow(line: string, row: nat, ghost read: seq<nat>) returns (ok: bool)
      requires Valid() && row < Size && |read| == Size * row
      requires forall i :: 0 <= i < |read| ==> cells[i] == read[i]
      modifies cells
      ensures Valid() && unchanged(rows, cols)
      ensures ok <==> ParseRow(line).Ok?
      ensures ok ==> forall i :: 0 <= i < |read| + Size ==> cells[i] == (read + ParseRow(line).value)[i]
    {
      var tokens := NonEmpty(Split(line, ' '));
      if |tokens| != Size {
        return false;
      }
      var start := Size * row;
      ghost var vs: seq<nat> := [];
      var col := 0;
      assert tokens[..col] == [];
      while col < Size
        invariant 0 <= col <= Size && |vs| == col
        invariant forall i :: 0 <= i < start ==> cells[i] == read[i]
        invariant ParseBytes(tokens[..col]) == Ok(vs)
        invariant forall i :: 0 <= i < col ==> cells[start + i] == vs[i]
      {
        var v := ParseUnsigned(tokens[col], U8Max);
        if v.None? {
          return false;
        }
        ParseBytesSnoc(tokens, col);
        cells[start + col] := v.value;
        vs := vs + [v.value];
        col := col + 1;
      }
      assert tokens[..col] == tokens;
      return true;
    }

    /** `find_pos`: scan the cells in order for the number. */
    method FindPos(num: nat) returns (r: Option<nat>)
      requires Valid()
      ensures r == FirstIndex(View().cells, num)
    {
      FirstIndexIsFirst(cells[..], num);
      var n := 0;
      while n < cells.Length
        invariant 0 <= n <= cells.Length
        invariant forall q :: 0 <= q < n ==> cells[q] != num
      {
        if cells[n] == num {
          return Some(n);
        }
        n := n + 1;
      }
      assert num !in cells[..];
      return None;
    }

    /** `open`: set the bit of the number's column in its row's mask and the
        bit of its row in its column's mask. */
    method Open(num: nat)
      requires Valid()
      modifies rows, cols
      ensures Valid()
      ensures View() == Day04.Open(old(View()), num)
    {
      var pos := FindPos(num);
      if pos.Some? {
        var p := pos.value;
        PosBounds(p);
        Mark(Pos(p).Row(), Pos(p).Col());
      }
    }

    /** The two statements of `open` that set the bits: bit `col` of row
        `row`'s mask and bit `row` of column `col`'s mask. */
    method Mark(row: nat, col: nat)
      requires Valid() && row < Size && col < Size
      modifies rows, cols
      ensures Valid()
      ensures View() == Day04.Mark(old(View()), row, col)
    {
      rows[row] := rows[row] | Bit(col);
      cols[col] := cols[col] | Bit(row);
      assert rows[..] == old(rows[..])[row := old(rows[row]) | Bit(col)];
    }

    /** `is_winning`: look for a full mask among the rows, then among the
        columns. */
    method IsWinning() returns (r: bool)
      requires Valid()
      ensures r == Winning(View())
    {
      var i := 0;
      while i < Size
        invariant 0 <= i <= Size
        invariant forall k :: 0 <= k < i ==> rows[k] != FullLine
      {
        if rows[i] == FullLine {
          return true;
        }
        i := i + 1;
      }
      i := 0;
      while i < Size
        invariant 0 <= i <= Size
        invariant forall k :: 0 <= k < i ==> cols[k] != FullLine
      {
        if cols[i] == FullLine {
          return true;
        }
        i := i + 1;
      }
      return false;
    }

    /** `is_marked_at`: the row's mask must have the column's bit and the
        column's mask the row's bit. */
    method IsMarkedAt(p: nat) returns (r: bool)
      requires Valid() && p < CellCount
      ensures r == Day04.IsMarkedAt(View(), p)
    {
      PosBounds(p);
      var row, col := Pos(p).Row(), Pos(p).Col();
      assert Day04.IsMarkedAt(View(), p) <==> rows[row] & Bit(col) != 0 && cols[col] & Bit(row) != 0;
      if rows[row] & Bit(col) == 0 {
        return false;
      }
      if cols[col] & Bit(row) == 0 {
        return false;
      }
      return true;
    }

    /** `all_unmarked`: the numbers of the unmarked cells, in position
        order. */
    method AllUnmarked() returns (r: seq<nat>)
      requires Valid()
      ensures r == Unmarked(View())
    {
      r := [];
      var x := 0;
      while x < CellCount
        invariant 0 <= x <= CellCount
        invariant r == UnmarkedBefore(View(), x)
      {
        var marked := IsMarkedAt(x);
        if !marked {
          r := r + [cells[x]];
        }
        x := x + 1;
      }
    }

    /** The score `play` and `play_part2` report for this board at draw
        `n`: the unmarked numbers added up, times the draw. */
    method ScoreAt(n: nat) returns (r: nat)
      requires Valid()
      ensures r == Score(View(), n)
    {
      var unmarked := AllUnmarked();
      var total := 0;
      var i := 0;
      while i < |unmarked|
        invariant 0 <= i <= |unmarked|
        invariant total == Sum(unmarked[..i])
      {
        SumSnoc(unmarked, i);
        total := total + unmarked[i];
        i := i + 1;
      }
      assert unmarked[..i] == unmarked;
      TimesIsProduct(total, n);
      r := total * n;
    }
  }

  /** Adding up one more number. */
  lemma {:induction false} SumSnoc(s: seq<nat>, i: nat)
    requires i < |s|
    ensures Sum(s[..i + 1]) == Sum(s[..i]) + s[i]
  {
    if i > 0 {
      SumSnoc(s[1..], i - 1);
      assert s[1..][..i] == s[..i + 1][1..];
      assert s[1..][..i - 1] == s[..i][1..];
    }
  }
}
