/** Day 4, reading the puzzle input: the draws on the first line, then the
    boards, each a block of five lines of five numbers, with blank lines
    between the blocks. */
module Day04Parse {
  import opened Common
  import opened Day04

  /** `.filter(|s| !s.is_empty())`: the pieces that are not empty, in
      order. */
  function NonEmpty(ps: seq<string>): (r: seq<string>)
    ensures |r| <= |ps|
    ensures forall i :: 0 <= i < |r| ==> r[i] != []
  {
    if ps == [] then []
    else if ps[0] == [] then NonEmpty(ps[1..])
    else [ps[0]] + NonEmpty(ps[1..])
  }

  /** Each piece read as a `u8` (`parse::<u8>()`); a piece that is not one
      fails the lot, as `collect::<Result<Vec<_>, _>>()` does. */
  function ParseBytes(ts: seq<string>): (r: Result<seq<nat>>)
    ensures r.Ok? <==> forall i :: 0 <= i < |ts| ==> ParseUnsigned(ts[i], U8Max).Some?
    ensures r.Ok? ==> |r.value| == |ts|
    ensures r.Ok? ==> forall i :: 0 <= i < |ts| ==> ParseUnsigned(ts[i], U8Max) == Some(r.value[i])
  {
    if ts == [] then Ok([])
    else match ParseBytes(ts[..|ts| - 1])
      case Err => Err
      case Ok(vs) =>
        match ParseUnsigned(ts[|ts| - 1], U8Max)
        case None => Err
        case Some(v) => Ok(vs + [v])
  }

  /** Reading one more piece. */
  lemma ParseBytesSnoc(ts: seq<string>, i: nat)
    requires i < |ts|
    ensures ParseBytes(ts[..i + 1]) ==
              if ParseBytes(ts[..i]).Ok? && ParseUnsigned(ts[i], U8Max).Some?
              then Ok(ParseBytes(ts[..i]).value + [ParseUnsigned(ts[i], U8Max).value])
              else Err
  {
    assert ts[..i + 1][..i] == ts[..i];
  }

  /** Reading one more row. */
  lemma ParseRowsSnoc(ls: seq<string>, l: string)
    ensures ParseRows(ls + [l]) ==
              if ParseRows(ls).Ok? && ParseRow(l).Ok?
              then Ok(ParseRows(ls).value + ParseRow(l).value)
              else Err
  {
    assert (ls + [l])[..|ls|] == ls;
  }

  /** Every piece trimmed. */
  function TrimAll(ts: seq<string>): seq<string> {
    seq(|ts|, i requires 0 <= i < |ts| => Trim(ts[i]))
  }

  /** `NumberGenerator::from_str`: split at every ',', drop the empty
      pieces, and read each of the others, trimmed, as a `u8`. */
  function ParseNumbers(s: string): Result<seq<nat>> {
    ParseBytes(TrimAll(NonEmpty(Split(s, ','))))
  }

  /** One line of a board (the body of the row loop of `Board::from_str`):
      exactly five pieces between the spaces, leaving out the empty ones,
      each a `u8`. */
  function ParseRow(line: string): (r: Result<seq<nat>>)
    ensures r.Ok? ==> |r.value| == Size
  {
    var ts := NonEmpty(Split(line, ' '));
    if |ts| != Size then Err else ParseBytes(ts)
  }

  /** The rows of a board one after the other, row-major. */
  function ParseRows(ls: seq<string>): (r: Result<seq<nat>>)
    ensures r.Ok? ==> |r.value| == Size * |ls|
  {
    if ls == [] then Ok([])
    else match ParseRows(ls[..|ls| - 1])
      case Err => Err
      case Ok(cells) =>
        match ParseRow(ls[|ls| - 1])
        case Err => Err
        case Ok(row) => Ok(cells + row)
  }

  /** `Board::from_str`: the non-empty lines must be exactly five, each a
      row of the board; nothing is marked yet. */
  function ParseCard(s: string): (r: Result<Card>)
    ensures r.Ok? ==> Shaped(r.value) && r.value == Blank(r.value.cells)
  {
    var ls := NonEmpty(Lines(s));
    if |ls| != Size then Err
    else match ParseRows(ls)
      case Err => Err
      case Ok(cells) => Ok(Blank(cells))
  }

  /** The loop of `BingoGame::from_str` over the lines after the first,
      with `buf` the block read so far: a non-empty line joins `buf`
      followed by a line feed; an empty line ends the block in `buf`, if
      there is one; a block still in `buf` at the end is the last. */
  function Blocks(ls: seq<string>, buf: string): (r: seq<string>)
    ensures forall i :: 0 <= i < |r| ==> r[i] != []
  {
    if ls == [] then (if buf == [] then [] else [buf])
    else if ls[0] == [] then (if buf == [] then [] else [buf]) + Blocks(ls[1..], [])
    else Blocks(ls[1..], buf + ls[0] + "\n")
  }

  /** Each block read as a board; a block that is not one fails the lot. */
  function ParseCards(blocks: seq<string>): Result<seq<Card>> {
    Collect(seq(|blocks|, i requires 0 <= i < |blocks| => ParseCard(blocks[i])))
  }

  /** The boards are read exactly when every block is a board, and then
      board `i` is block `i` read. */
  lemma CardsIff(blocks: seq<string>)
    ensures ParseCards(blocks).Ok? <==> forall i :: 0 <= i < |blocks| ==> ParseCard(blocks[i]).Ok?
    ensures ParseCards(blocks).Ok? ==> |ParseCards(blocks).value| == |blocks|
    ensures ParseCards(blocks).Ok? ==> forall i :: 0 <= i < |blocks| ==> ParseCard(blocks[i]) == Ok(ParseCards(blocks).value[i])
  {
    var rs := seq(|blocks|, i requires 0 <= i < |blocks| => ParseCard(blocks[i]));
    CollectIff(rs);
    assert forall i :: 0 <= i < |blocks| ==> rs[i] == ParseCard(blocks[i]);
  }

  /** `BingoGame::from_str`: the first line holds the draws and the lines
      after it the boards; there must be a first line. */
  function ParseGame(s: string): (r: Result<(seq<nat>, seq<Card>)>)
  {
    var ls := Lines(s);
    if ls == [] then Err
    else match ParseNumbers(ls[0])
      case Err => Err
      case Ok(nums) =>
        match ParseCards(Blocks(ls[1..], []))
        case Err => Err
        case Ok(cards) => Ok((nums, cards))
  }

  /* ---------------------------------------------------------------------
     The draws
     --------------------------------------------------------------------- */

  /** Pieces with nothing empty among them all stay. */
  lemma {:induction false} NonEmptyKeeps(ps: seq<string>)
    requires forall i :: 0 <= i < |ps| ==> ps[i] != []
    ensures NonEmpty(ps) == ps
  {
    if ps != [] {
      NonEmptyKeeps(ps[1..]);
    }
  }

  /** The decimal text of every number. */
  function Shows(vs: seq<nat>): (r: seq<string>)
    ensures |r| == |vs|
    ensures forall i :: 0 <= i < |vs| ==> r[i] == ShowNat(vs[i])
  {
    if vs == [] then [] else [ShowNat(vs[0])] + Shows(vs[1..])
  }

  /** Digits hold no separator, no whitespace, and are never empty. */
  lemma ShowsPlain(vs: seq<nat>)
    ensures forall i :: 0 <= i < |vs| ==> Shows(vs)[i] != [] && AllDigits(Shows(vs)[i])
  {
    forall i | 0 <= i < |vs|
      ensures Shows(vs)[i] != [] && AllDigits(Shows(vs)[i])
    {
      ShowNatDigits(vs[i]);
    }
  }

  /** Reading back the decimal text of bytes gives the bytes. */
  lemma ParseBytesShows(vs: seq<nat>)
    requires forall i :: 0 <= i < |vs| ==> vs[i] <= U8Max
    ensures ParseBytes(Shows(vs)) == Ok(vs)
  {
    var ts := Shows(vs);
    forall i | 0 <= i < |ts|
      ensures ParseUnsigned(ts[i], U8Max) == Some(vs[i])
    {
      ParseShowNat(vs[i], U8Max);
    }
    var r := ParseBytes(ts);
    assert r.Ok?;
    assert r.value == vs;
  }

  /** A string of digits is its own trim. */
  lemma TrimDigits(s: string)
    requires s != [] && AllDigits(s)
    ensures Trim(s) == s
  {
    assert !IsWhitespace(s[0]) && !IsWhitespace(s[|s| - 1]);
  }

  /** The draws, written out as decimal numbers with commas between them,
      read back as themselves. */
  lemma NumbersRoundTrip(nums: seq<nat>)
    requires |nums| >= 1
    requires forall i :: 0 <= i < |nums| ==> nums[i] <= U8Max
    ensures ParseNumbers(Join(Shows(nums), ',')) == Ok(nums)
  {
    var ts := Shows(nums);
    ShowsApart(nums, ',');
    NumbersOfPieces(ts);
    ShowsPlain(nums);
    NonEmptyKeeps(ts);
    TrimShows(nums);
    ParseBytesShows(nums);
  }

  /** A separator that is not a digit is in no written number. */
  lemma ShowsApart(vs: seq<nat>, c: char)
    requires !IsDigit(c)
    ensures forall i :: 0 <= i < |vs| ==> c !in Shows(vs)[i]
  {
    ShowsPlain(vs);
  }

  /** Written numbers are their own trims. */
  lemma TrimShows(vs: seq<nat>)
    ensures TrimAll(Shows(vs)) == Shows(vs)
  {
    var ts := Shows(vs);
    ShowsPlain(vs);
    forall i | 0 <= i < |ts|
      ensures TrimAll(ts)[i] == ts[i]
    {
      TrimDigits(ts[i]);
    }
  }

  /** A successful read gives one byte per non-empty piece, in order. */
  lemma NumbersSound(s: string)
    ensures ParseNumbers(s).Ok? ==> |ParseNumbers(s).value| == |NonEmpty(Split(s, ','))|
    ensures ParseNumbers(s).Ok? ==> forall i :: 0 <= i < |ParseNumbers(s).value| ==> ParseNumbers(s).value[i] <= U8Max
  {
    var ts := TrimAll(NonEmpty(Split(s, ',')));
    if ParseNumbers(s).Ok? {
      forall i | 0 <= i < |ts|
        ensures ParseNumbers(s).value[i] <= U8Max
      {
        ParseUnsignedSound(ts[i], U8Max);
      }
    }
  }

  /** Splitting the draws at the commas: the empty pieces are dropped and
      the others read trimmed. */
  lemma NumbersOfPieces(ps: seq<string>)
    requires |ps| >= 1
    requires forall i :: 0 <= i < |ps| ==> ',' !in ps[i]
    ensures ParseNumbers(Join(ps, ',')) == ParseBytes(TrimAll(NonEmpty(ps)))
  {
    SplitJoin(ps, ',');
  }

  /** The first case of the tests of `NumberGenerator::from_str`: nothing
      gives no draws. */
  lemma NumbersEmpty()
    ensures ParseNumbers("") == Ok([])
  {
    assert Split("", ',') == [""];
  }

  /** The last case of the tests of `NumberGenerator::from_str`: a piece
      that is not a number is an error. */
  lemma NumbersRejectLetter()
    ensures ParseNumbers("a") == Err
  {
    SplitNoSeparator("a", ',');
    assert NonEmpty(["a"]) == ["a"];
    assert TrimAll(["a"]) == ["a"] by { assert Trim("a") == "a"; }
    assert ParseUnsigned("a", U8Max) == None by { assert !IsDigit('a'); }
  }

  /* ---------------------------------------------------------------------
     The boards
     --------------------------------------------------------------------- */

  /** The rows are read exactly when each line is a row. */
  lemma {:induction false} ParseRowsOk(ls: seq<string>)
    ensures ParseRows(ls).Ok? <==> forall r :: 0 <= r < |ls| ==> ParseRow(ls[r]).Ok?
  {
    if ls != [] {
      var front := ls[..|ls| - 1];
      ParseRowsOk(front);
      assert forall r :: 0 <= r < |front| ==> front[r] == ls[r];
    }
  }

  /** Row `r` is read into cells `5 * r` to `5 * r + 4`: the board is
      stored row-major. */
  lemma {:induction false} ParseRowsCells(ls: seq<string>)
    requires ParseRows(ls).Ok?
    ensures forall r :: 0 <= r < |ls| ==>
              ParseRow(ls[r]) == Ok(ParseRows(ls).value[Size * r..Size * r + Size])
  {
    if ls != [] {
      var n := |ls| - 1;
      var front := ls[..n];
      var cells := ParseRows(front).value;
      var all := ParseRows(ls).value;
      assert all == cells + ParseRow(ls[n]).value;
      ParseRowsCells(front);
      forall r | 0 <= r < |ls|
        ensures ParseRow(ls[r]) == Ok(all[Size * r..Size * r + Size])
      {
        if r < n {
          assert front[r] == ls[r];
          assert all[Size * r..Size * r + Size] == cells[Size * r..Size * r + Size];
        } else {
          assert all[Size * r..Size * r + Size] == ParseRow(ls[n]).value;
        }
      }
    }
  }

  /** `Board::from_str` succeeds exactly when there are five non-empty
      lines, each a row of five `u8` pieces, and then cells `5 * r` to
      `5 * r + 4` hold row `r`. */
  lemma CardIff(s: string)
    ensures ParseCard(s).Ok? <==>
              |NonEmpty(Lines(s))| == Size && forall r :: 0 <= r < Size ==> ParseRow(NonEmpty(Lines(s))[r]).Ok?
    ensures ParseCard(s).Ok? ==> forall r :: 0 <= r < Size ==>
              ParseRow(NonEmpty(Lines(s))[r]) == Ok(ParseCard(s).value.cells[Size * r..Size * r + Size])
  {
    ParseRowsOk(NonEmpty(Lines(s)));
    if ParseCard(s).Ok? {
      ParseRowsCells(NonEmpty(Lines(s)));
    }
  }

  /** A row is five `u8` pieces between the spaces. */
  lemma RowIff(line: string)
    ensures ParseRow(line).Ok? <==>
              |NonEmpty(Split(line, ' '))| == Size &&
              forall c :: 0 <= c < Size ==> ParseUnsigned(NonEmpty(Split(line, ' '))[c], U8Max).Some?
    ensures ParseRow(line).Ok? ==> forall c :: 0 <= c < Size ==>
              ParseUnsigned(NonEmpty(Split(line, ' '))[c], U8Max) == Some(ParseRow(line).value[c])
  {
  }

  /** A row written out: its numbers with a space between each two. */
  function ShowRow(vs: seq<nat>): string
    requires |vs| >= 1
  {
    Join(Shows(vs), ' ')
  }

  /** A board's numbers written out, one row per line. */
  function ShowCard(cells: seq<nat>): string
    requires |cells| == CellCount
  {
    Unlines(RowLines(cells))
  }

  /** The lines of a board written out. */
  function RowLines(cells: seq<nat>): (r: seq<string>)
    requires |cells| == CellCount
    ensures |r| == Size
  {
    seq(Size, r requires 0 <= r < Size => ShowRow(cells[Size * r..Size * r + Size]))
  }

  /** A row written out reads back as itself. */
  lemma RowRoundTrip(vs: seq<nat>)
    requires |vs| == Size
    requires forall i :: 0 <= i < |vs| ==> vs[i] <= U8Max
    ensures ParseRow(ShowRow(vs)) == Ok(vs)
  {
    var ts := Shows(vs);
    ShowsPlain(vs);
    forall i | 0 <= i < |ts|
      ensures ' ' !in ts[i]
    {
      assert !IsDigit(' ');
    }
    SplitJoin(ts, ' ');
    NonEmptyKeeps(ts);
    ParseBytesShows(vs);
  }

  /** A written row is one line: it has no line feed, does not end in a
      carriage return, and is not empty. */
  lemma RowIsLine(vs: seq<nat>)
    requires |vs| >= 1
    ensures ShowRow(vs) != [] && '\n' !in ShowRow(vs) && StripCR(ShowRow(vs)) == ShowRow(vs)
  {
    var ts := Shows(vs);
    ShowsPlain(vs);
    JoinPlain(ts, ' ');
  }

  /** Pieces of digits joined by a space: not empty, no line feed, and the
      last character a digit. */
  lemma {:induction false} JoinPlain(ts: seq<string>, c: char)
    requires |ts| >= 1 && c != '\n'
    requires forall i :: 0 <= i < |ts| ==> ts[i] != [] && AllDigits(ts[i])
    ensures Join(ts, c) != [] && IsDigit(Join(ts, c)[|Join(ts, c)| - 1])
    ensures '\n' !in Join(ts, c)
  {
    if |ts| > 1 {
      JoinPlain(ts[1..], c);
      assert !IsDigit('\n');
    } else {
      assert !IsDigit('\n');
    }
  }

  /** Rows that each read as the next five cells read as all the cells. */
  lemma {:induction false} ParseRowsOf(ls: seq<string>, cells: seq<nat>)
    requires |cells| == Size * |ls|
    requires forall r :: 0 <= r < |ls| ==> ParseRow(ls[r]) == Ok(cells[Size * r..Size * r + Size])
    ensures ParseRows(ls) == Ok(cells)
  {
    if ls != [] {
      var n := |ls| - 1;
      var front := cells[..Size * n];
      forall r | 0 <= r < n
        ensures ParseRow(ls[..n][r]) == Ok(front[Size * r..Size * r + Size])
      {
        assert front[Size * r..Size * r + Size] == cells[Size * r..Size * r + Size];
      }
      ParseRowsOf(ls[..n], front);
      assert cells == front + cells[Size * n..Size * n + Size];
    }
  }

  /** A board written out one row per line reads back as itself, with
      nothing marked. */
  lemma CardRoundTrip(cells: seq<nat>)
    requires |cells| == CellCount
    requires forall i :: 0 <= i < |cells| ==> cells[i] <= U8Max
    ensures ParseCard(ShowCard(cells)) == Ok(Blank(cells))
  {
    var rows := RowLines(cells);
    forall r | 0 <= r < Size
      ensures ParseRow(rows[r]) == Ok(cells[Size * r..Size * r + Size])
    {
      RowRoundTrip(cells[Size * r..Size * r + Size]);
    }
    RowLinesPlain(cells);
    LinesUnlines(rows);
    NonEmptyKeeps(rows);
    ParseRowsOf(rows, cells);
  }

  /** The lines of a written board are lines: not empty, without a line
      feed, not ending in a carriage return. */
  lemma RowLinesPlain(cells: seq<nat>)
    requires |cells| == CellCount
    ensures forall r :: 0 <= r < Size ==> Plain(RowLines(cells)[r])
  {
    forall r | 0 <= r < Size
      ensures Plain(RowLines(cells)[r])
    {
      RowIsLine(cells[Size * r..Size * r + Size]);
    }
  }

  /* ---------------------------------------------------------------------
     The game
     --------------------------------------------------------------------- */

  /** A line as `lines` gives it back from text: not empty, no line feed,
      no carriage return at its end. */
  predicate Plain(line: string) {
    line != [] && '\n' !in line && StripCR(line) == line
  }

  /** Each board written out, a blank line before each. */
  function Groups(boards: seq<seq<nat>>): seq<string>
    requires forall k :: 0 <= k < |boards| ==> |boards[k]| == CellCount
  {
    if boards == [] then [] else [""] + RowLines(boards[0]) + Groups(boards[1..])
  }

  /** A whole puzzle input written out: the draws with commas between
      them on the first line, then the boards, a blank line before each. */
  function ShowGame(nums: seq<nat>, boards: seq<seq<nat>>): string
    requires |nums| >= 1
    requires forall k :: 0 <= k < |boards| ==> |boards[k]| == CellCount
  {
    Unlines([Join(Shows(nums), ',')] + Groups(boards))
  }

  /** Non-empty lines join the block being read. */
  lemma {:induction false} BlocksGather(rows: seq<string>, rest: seq<string>, pending: seq<string>)
    requires forall i :: 0 <= i < |rows| ==> rows[i] != []
    ensures Blocks(rows + rest, Unlines(pending)) == Blocks(rest, Unlines(pending + rows))
  {
    if rows != [] {
      assert (rows + rest)[1..] == rows[1..] + rest;
      UnlinesSnoc(pending, rows[0]);
      BlocksGather(rows[1..], rest, pending + [rows[0]]);
      assert pending + [rows[0]] + rows[1..] == pending + rows;
    } else {
      assert rows + rest == rest && pending + rows == pending;
    }
  }

  lemma {:induction false} UnlinesSnoc(ls: seq<string>, l: string)
    ensures Unlines(ls + [l]) == Unlines(ls) + l + "\n"
  {
    if ls != [] {
      assert (ls + [l])[1..] == ls[1..] + [l];
      UnlinesSnoc(ls[1..], l);
    } else {
      assert Unlines([l]) == l + "\n" + Unlines([]);
    }
  }

  /** A block being read ends where a blank line begins, or at the end
      of the lines. */
  lemma BlocksFlush(rest: seq<string>, buf: string)
    requires rest == [] || rest[0] == []
    requires buf != []
    ensures Blocks(rest, buf) == [buf] + Blocks(rest, [])
  {
  }

  /** A blank line, then a block of non-empty lines up to the next blank
      line or the end, is that block. */
  lemma BlockAfterBlank(rows: seq<string>, rest: seq<string>)
    requires rows != [] && forall i :: 0 <= i < |rows| ==> rows[i] != []
    requires rest == [] || rest[0] == []
    ensures Blocks([[]] + rows + rest, []) == [Unlines(rows)] + Blocks(rest, [])
  {
    assert ([[]] + rows + rest)[1..] == rows + rest;
    BlocksGather(rows, rest, []);
    assert [] + rows == rows;
    assert Unlines(rows) != [];
    BlocksFlush(rest, Unlines(rows));
  }

  /** Boards written out one after the other. */
  function ShowCards(boards: seq<seq<nat>>): seq<string>
    requires forall k :: 0 <= k < |boards| ==> |boards[k]| == CellCount
  {
    seq(|boards|, k requires 0 <= k < |boards| => ShowCard(boards[k]))
  }

  /** Boards with nothing marked, one per list of cells. */
  function Blanks(boards: seq<seq<nat>>): seq<Card> {
    seq(|boards|, k requires 0 <= k < |boards| => Blank(boards[k]))
  }

  /** The first written board is the first block. */
  lemma GroupsStep(boards: seq<seq<nat>>)
    requires forall k :: 0 <= k < |boards| ==> |boards[k]| == CellCount
    requires boards != []
    ensures Blocks(Groups(boards), []) == [ShowCard(boards[0])] + Blocks(Groups(boards[1..]), [])
  {
    var rows := RowLines(boards[0]);
    var rest := Groups(boards[1..]);
    RowLinesPlain(boards[0]);
    assert rest == [] || rest[0] == [];
    BlockAfterBlank(rows, rest);
  }

  /** The blocks of written boards are the boards written out. */
  lemma {:induction false} BlocksOfGroups(boards: seq<seq<nat>>)
    requires forall k :: 0 <= k < |boards| ==> |boards[k]| == CellCount
    ensures Blocks(Groups(boards), []) == ShowCards(boards)
  {
    if boards != [] {
      GroupsStep(boards);
      BlocksOfGroups(boards[1..]);
      assert ShowCards(boards) == [ShowCard(boards[0])] + ShowCards(boards[1..]);
    }
  }

  /** Written boards read back as the boards, with nothing marked. */
  lemma CardsRoundTrip(boards: seq<seq<nat>>)
    requires forall k :: 0 <= k < |boards| ==> |boards[k]| == CellCount
    requires forall k, i :: 0 <= k < |boards| && 0 <= i < CellCount ==> boards[k][i] <= U8Max
    ensures ParseCards(ShowCards(boards)) == Ok(Blanks(boards))
  {
    var shown := ShowCards(boards);
    forall k | 0 <= k < |boards|
      ensures ParseCard(shown[k]) == Ok(Blank(boards[k]))
    {
      CardRoundTrip(boards[k]);
    }
    CardsIff(shown);
    assert ParseCards(shown).value == Blanks(boards);
  }

  /** Every line of a written game is a line `lines` gives back. */
  lemma {:induction false} GroupsPlain(boards: seq<seq<nat>>)
    requires forall k :: 0 <= k < |boards| ==> |boards[k]| == CellCount
    ensures forall i :: 0 <= i < |Groups(boards)| ==> '\n' !in Groups(boards)[i] && StripCR(Groups(boards)[i]) == Groups(boards)[i]
  {
    if boards != [] {
      RowLinesPlain(boards[0]);
      GroupsPlain(boards[1..]);
    }
  }

  /** A written puzzle input reads back as its draws and its boards, with
      nothing marked. */
  lemma GameRoundTrip(nums: seq<nat>, boards: seq<seq<nat>>)
    requires |nums| >= 1
    requires forall i :: 0 <= i < |nums| ==> nums[i] <= U8Max
    requires forall k :: 0 <= k < |boards| ==> |boards[k]| == CellCount
    requires forall k, i :: 0 <= k < |boards| && 0 <= i < CellCount ==> boards[k][i] <= U8Max
    ensures ParseGame(ShowGame(nums, boards)) == Ok((nums, Blanks(boards)))
  {
    var first := Join(Shows(nums), ',');
    ShowsPlain(nums);
    JoinPlain(Shows(nums), ',');
    GroupsPlain(boards);
    var ls := [first] + Groups(boards);
    LinesUnlines(ls);
    assert Lines(ShowGame(nums, boards)) == ls;
    assert ls[1..] == Groups(boards);
    NumbersRoundTrip(nums);
    BlocksOfGroups(boards);
    CardsRoundTrip(boards);
  }
}
