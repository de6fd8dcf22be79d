/** Day 5: hydrothermal vent lines. A line "x1,y1 -> x2,y2" is walked
    point by point in unit steps (`LineIterator`); horizontal and vertical
    lines always, 45-degree diagonals only when the field considers them.
    The field counts how often each point is visited, and the dangerous
    points are those visited at least twice. */
module Day05 {
  import opened Common

  /** `Point`: two `i64` coordinates. */
  datatype Point = Point(x: int, y: int)

  /** `Line`: from `start` to `end`, both included. */
  datatype Line = Line(start: Point, end: Point)

  /** `Field<C>`: the lines, and whether diagonals count (`C`). */
  datatype Field = Field(lines: seq<Line>, diagonals: bool)

  function Abs(v: int): nat {
    if v < 0 then -v else v
  }

  /** `i64::cmp(&0) as i64`: -1, 0 or 1. */
  function Signum(v: int): int {
    if v < 0 then -1 else if v == 0 then 0 else 1
  }

  /** `Point::unit`: the sign of each coordinate. */
  function Unit(p: Point): Point {
    Point(Signum(p.x), Signum(p.y))
  }

  /** `impl Add for Point`. */
  function Add(a: Point, b: Point): Point {
    Point(a.x + b.x, a.y + b.y)
  }

  /** `impl Sub for Point`. */
  function Sub(a: Point, b: Point): Point {
    Point(a.x - b.x, a.y - b.y)
  }

  /** `k` steps of `d`. */
  function Scale(k: int, d: Point): Point {
    Point(k * d.x, k * d.y)
  }

  /** Each coordinate of the unit is -1, 0 or 1, is 0 exactly where the
      point's is, has the point's sign, and times the point's coordinate
      gives its size. */
  lemma UnitIsSign(p: Point)
    ensures -1 <= Unit(p).x <= 1 && -1 <= Unit(p).y <= 1
    ensures (Unit(p).x == 0 <==> p.x == 0) && (Unit(p).y == 0 <==> p.y == 0)
    ensures (Unit(p).x > 0 <==> p.x > 0) && (Unit(p).y > 0 <==> p.y > 0)
    ensures Unit(p).x * p.x == Abs(p.x) && Unit(p).y * p.y == Abs(p.y)
  {
  }

  /** Subtracting a point undoes adding it, and the other way round. */
  lemma AddSub(a: Point, b: Point)
    ensures Add(Sub(a, b), b) == a && Sub(Add(a, b), b) == a
  {
  }

  /* ---------------------------------------------------------------------
     Walking a line
     --------------------------------------------------------------------- */

  /** The points a `LineIterator` at `current` with step `delta` and
      counter `len` still yields: none when `len` is negative, otherwise
      `len + 1` points, the `k`-th being `current + k * delta`. */
  function Walk(current: Point, delta: Point, len: int): (r: seq<Point>)
    ensures |r| == if len < 0 then 0 else len + 1
  {
    if len < 0 then [] else seq(len + 1, k => Add(current, Scale(k, delta)))
  }

  /** A walk is its first point and then the walk one step on. */
  lemma WalkStep(current: Point, delta: Point, len: int)
    requires len >= 0
    ensures Walk(current, delta, len) == [current] + Walk(Add(current, delta), delta, len - 1)
  {
    var w := Walk(current, delta, len);
    var rest := Walk(Add(current, delta), delta, len - 1);
    forall k | 0 <= k < |rest|
      ensures rest[k] == w[k + 1]
    {
      assert Add(Add(current, delta), Scale(k, delta)) == Add(current, Scale(k + 1, delta));
    }
  }

  /** `LineIterator`: the next point, the unit step and the number of
      steps still to take after the next point. */
  class LineIterator {
    var current: Point
    const delta: Point
    var len: int

    constructor (current: Point, delta: Point, len: int)
      ensures this.current == current && this.delta == delta && this.len == len
    {
      this.current, this.delta, this.len := current, delta, len;
    }

    /** The points still to come. */
    ghost function Remaining(): seq<Point>
      reads this
    {
      Walk(current, delta, len)
    }

    /** `next`: nothing once `len` is negative; otherwise the current
        point, stepping `current` by `delta` and counting `len` down. */
    method Next() returns (r: Option<Point>)
      modifies this
      ensures r.None? <==> old(len) < 0
      ensures r.None? ==> current == old(current) && len == old(len)
      ensures r.Some? ==> r.value == old(current) && current == Add(old(current), delta) && len == old(len) - 1
      ensures old(Remaining()) == if r.None? then [] else [r.value] + Remaining()
    {
      if len < 0 {
        return None;
      }
      WalkStep(current, delta, len);
      var ret := current;
      current := Add(current, delta);
      len := len - 1;
      return Some(ret);
    }
  }

  /** The `len` that `iter_with_options` gives: -1 (nothing) for a line
      of one point, the length along the axis for a horizontal or vertical
      line, and for any other line the length when diagonals count and it
      is at 45 degrees, else -1. */
  function Span(l: Line, diagonals: bool): int {
    var d := Sub(l.end, l.start);
    match (d.x == 0, d.y == 0)
    case (true, true) => -1
    case (true, false) => Abs(d.y)
    case (false, true) => Abs(d.x)
    case (false, false) => if diagonals && Abs(d.y) == Abs(d.x) then Abs(d.y) else -1
  }

  /** The points `iter_with_options` yields for the line. */
  function Rasterize(l: Line, diagonals: bool): seq<Point> {
    Walk(l.start, Unit(Sub(l.end, l.start)), Span(l, diagonals))
  }

  /** `Line::iter_with_options`: an iterator at the start, stepping by the
      unit of the line's direction, `Span` steps. */
  method IterWithOptions(l: Line, diagonals: bool) returns (it: LineIterator)
    ensures fresh(it) && it.Remaining() == Rasterize(l, diagonals)
  {
    var delta := Sub(l.end, l.start);
    var len: int;
    if delta.x == 0 && delta.y == 0 {
      len := -1;
    } else if delta.x == 0 {
      len := Abs(delta.y);
    } else if delta.y == 0 {
      len := Abs(delta.x);
    } else if diagonals && Abs(delta.y) == Abs(delta.x) {
      len := Abs(delta.y);
    } else {
      len := -1;
    }
    it := new LineIterator(l.start, Unit(delta), len);
  }

  /** A line of a single point yields nothing, diagonals or not. */
  lemma SinglePointEmpty(l: Line, diagonals: bool)
    requires l.start == l.end
    ensures Rasterize(l, diagonals) == []
  {
  }

  /** The last of `n + 1` unit steps of size `n` along a coordinate lands
      on the coordinate's end. */
  lemma StepsReachEnd(s: int, e: int)
    ensures s + Abs(e - s) * Signum(e - s) == e
  {
  }

  /** A horizontal or vertical line yields every point from its start to
      its end, both included, one unit step apart, with or without
      diagonals. */
  lemma AxisLine(l: Line, diagonals: bool)
    requires (l.start.x == l.end.x) != (l.start.y == l.end.y)
    ensures |Rasterize(l, diagonals)| == Abs(l.end.x - l.start.x) + Abs(l.end.y - l.start.y) + 1
    ensures Rasterize(l, diagonals)[0] == l.start
    ensures Rasterize(l, diagonals)[|Rasterize(l, diagonals)| - 1] == l.end
    ensures Rasterize(l, diagonals) == Rasterize(l, !diagonals)
  {
    var r := Rasterize(l, diagonals);
    var n := |r| - 1;
    StepsReachEnd(l.start.x, l.end.x);
    StepsReachEnd(l.start.y, l.end.y);
    assert r[n] == Add(l.start, Scale(n, Unit(Sub(l.end, l.start))));
  }

  /** A line that is neither horizontal nor vertical yields points exactly
      when diagonals count and it runs at 45 degrees, and then it yields
      every point from its start to its end, one diagonal step apart. */
  lemma DiagonalLine(l: Line, diagonals: bool)
    requires l.start.x != l.end.x && l.start.y != l.end.y
    ensures Rasterize(l, diagonals) != [] <==> diagonals && Abs(l.end.x - l.start.x) == Abs(l.end.y - l.start.y)
    ensures Rasterize(l, diagonals) != [] ==>
              && |Rasterize(l, diagonals)| == Abs(l.end.x - l.start.x) + 1
              && Rasterize(l, diagonals)[0] == l.start
              && Rasterize(l, diagonals)[|Rasterize(l, diagonals)| - 1] == l.end
  {
    var r := Rasterize(l, diagonals);
    if r != [] {
      var n := |r| - 1;
      StepsReachEnd(l.start.x, l.end.x);
      StepsReachEnd(l.start.y, l.end.y);
      assert r[n] == Add(l.start, Scale(n, Unit(Sub(l.end, l.start))));
    }
  }

  /* ---------------------------------------------------------------------
     The field
     --------------------------------------------------------------------- */

  /** Every point every line yields, line after line (`flat_map`). */
  function AllPoints(lines: seq<Line>, diagonals: bool): seq<Point> {
    if lines == [] then []
    else AllPoints(lines[..|lines| - 1], diagonals) + Rasterize(lines[|lines| - 1], diagonals)
  }

  /** `*m.entry(p).or_default() += 1`. */
  function Bump(m: map<Point, nat>, p: Point): map<Point, nat> {
    m[p := (if p in m then m[p] else 0) + 1]
  }

  /** The map the histogram loop builds from the points, one `Bump` each. */
  function Hist(ps: seq<Point>): map<Point, nat> {
    if ps == [] then map[] else Bump(Hist(ps[..|ps| - 1]), ps[|ps| - 1])
  }

  /** The histogram holds exactly the points seen, each with the number of
      times it was seen. */
  lemma {:induction false} HistCounts(ps: seq<Point>)
    ensures forall p :: p in Hist(ps) <==> p in ps
    ensures forall p :: p in Hist(ps) ==> Hist(ps)[p] == multiset(ps)[p]
  {
    if ps != [] {
      var front := ps[..|ps| - 1];
      HistCounts(front);
      assert ps == front + [ps[|ps| - 1]];
    }
  }

  /** `Field::histogram`: walk every line's iterator, counting each point
      it yields. */
  method Histogram(f: Field) returns (m: map<Point, nat>)
    ensures m == Hist(AllPoints(f.lines, f.diagonals))
  {
    m := map[];
    var i := 0;
    while i < |f.lines|
      invariant 0 <= i <= |f.lines|
      invariant m == Hist(AllPoints(f.lines[..i], f.diagonals))
    {
      assert f.lines[..i + 1][..i] == f.lines[..i];
      m := CountLine(m, f.lines[i], f.diagonals, AllPoints(f.lines[..i], f.diagonals));
      i := i + 1;
    }
    assert f.lines[..i] == f.lines;
  }

  /** The inner part of `histogram`: count each point one line's iterator
      yields into a histogram of the points `before`. */
  method CountLine(m0: map<Point, nat>, l: Line, diagonals: bool, ghost before: seq<Point>) returns (m: map<Point, nat>)
    requires m0 == Hist(before)
    ensures m == Hist(before + Rasterize(l, diagonals))
  {
    m := m0;
    var it := IterWithOptions(l, diagonals);
    ghost var seen: seq<Point> := [];
    assert before + seen == before;
    while true
      invariant seen + it.Remaining() == Rasterize(l, diagonals)
      invariant m == Hist(before + seen)
      decreases |it.Remaining()|
    {
      var p := it.Next();
      if p.None? {
        break;
      }
      HistSnoc(before + seen, p.value);
      MoveOne(before, seen, p.value, it.Remaining());
      m := Bump(m, p.value);
      seen := seen + [p.value];
    }
    assert seen == Rasterize(l, diagonals);
  }

  lemma MoveOne<T>(a: seq<T>, b: seq<T>, x: T, c: seq<T>)
    ensures (a + b) + [x] == a + (b + [x])
    ensures b + ([x] + c) == (b + [x]) + c
  {
  }

  lemma HistSnoc(ps: seq<Point>, p: Point)
    ensures Hist(ps + [p]) == Bump(Hist(ps), p)
  {
    assert (ps + [p])[..|ps|] == ps;
  }

  /** `dengerous_points`: the points of the histogram counted at least
      twice. */
  function Dangerous(m: map<Point, nat>): set<Point> {
    set p | p in m && m[p] >= 2
  }

  /** `Field::dengerous_points`: the histogram, then its points counted at
      least twice; a point is dangerous exactly when the lines yield it at
      least twice in all. */
  method DangerousPoints(f: Field) returns (r: set<Point>)
    ensures forall p :: p in r <==> multiset(AllPoints(f.lines, f.diagonals))[p] >= 2
  {
    var m := Histogram(f);
    HistCounts(AllPoints(f.lines, f.diagonals));
    r := set p | p in m && m[p] >= 2;
  }

  /* ---------------------------------------------------------------------
     Parsing
     --------------------------------------------------------------------- */

  /** `Point::from_str`: split at the first ','; both pieces, trimmed,
      must be `i64`s; no ',' fails. */
  function ParsePoint(s: string): Result<Point> {
    var (xs, rest) := SplitOnce(s, ',');
    match ParseSigned(Trim(xs), I64Min, I64Max)
    case None => Err
    case Some(x) =>
      match rest
      case None => Err
      case Some(ys) =>
        match ParseSigned(Trim(ys), I64Min, I64Max)
        case None => Err
        case Some(y) => Ok(Point(x, y))
  }

  /** `Line::from_str`: split at the first "->"; both pieces must be
      points; no "->" fails. */
  function ParseLine(s: string): Result<Line> {
    var (a, rest) := SplitOnceStr(s, "->");
    match ParsePoint(a)
    case Err => Err
    case Ok(start) =>
      match rest
      case None => Err
      case Some(b) =>
        match ParsePoint(b)
        case Err => Err
        case Ok(end) => Ok(Line(start, end))
  }

  /** `Field::from_str`: every line of the text must be a line; the flag
      comes from the field's type. */
  function ParseField(s: string, diagonals: bool): Result<Field> {
    match ParseLines(Lines(s))
    case Err => Err
    case Ok(lines) => Ok(Field(lines, diagonals))
  }

  /** Each text line read as a line; one that is not fails the lot. */
  function ParseLines(ls: seq<string>): Result<seq<Line>> {
    Collect(seq(|ls|, i requires 0 <= i < |ls| => ParseLine(ls[i])))
  }

  /** The point in the input's own form. */
  function ShowPoint(p: Point): string {
    ShowInt(p.x) + "," + ShowInt(p.y)
  }

  /** The line in the input's own form. */
  function ShowLine(l: Line): string {
    ShowPoint(l.start) + " " + "->" + " " + ShowPoint(l.end)
  }

  predicate InRange(p: Point) {
    I64Min <= p.x <= I64Max && I64Min <= p.y <= I64Max
  }

  /** The text of a signed number holds only digits and '-'. */
  lemma SignedPlain(s: string)
    requires SignedDigits(s)
    ensures ',' !in s && '>' !in s && ' ' !in s && '\n' !in s
  {
    assert forall i :: 0 <= i < |s| ==> IsDigit(s[i]) || s[i] == '-';
  }

  /** Two pieces around the first comma that trim to `i64`s make a point. */
  lemma ParsePointParts(s: string, xs: string, ys: string, x: int, y: int)
    requires s == xs + "," + ys && ',' !in xs
    requires ParseSigned(Trim(xs), I64Min, I64Max) == Some(x)
    requires ParseSigned(Trim(ys), I64Min, I64Max) == Some(y)
    ensures ParsePoint(s) == Ok(Point(x, y))
  {
    SplitOnceOf(xs, ys, ',');
  }

  /** The text of an `i64` reads back as itself, also with a space before
      or after it, and holds no comma, space or '>'. */
  lemma IntText(v: int)
    requires I64Min <= v <= I64Max
    ensures ',' !in ShowInt(v) && ' ' !in ShowInt(v) && '>' !in ShowInt(v)
    ensures Trim(ShowInt(v)) == ShowInt(v)
    ensures Trim(" " + ShowInt(v)) == ShowInt(v) && Trim(ShowInt(v) + " ") == ShowInt(v)
    ensures ParseSigned(ShowInt(v), I64Min, I64Max) == Some(v)
  {
    ShowIntChars(v);
    SignedPlain(ShowInt(v));
    SignedTrim(ShowInt(v));
    ParseShowInt(v, I64Min, I64Max);
  }

  /** A point written out reads back as itself. */
  lemma PointRoundTrip(p: Point)
    requires InRange(p)
    ensures ParsePoint(ShowPoint(p)) == Ok(p)
  {
    IntText(p.x);
    IntText(p.y);
    ParsePointParts(ShowPoint(p), ShowInt(p.x), ShowInt(p.y), p.x, p.y);
  }

  /** So does a written point with a space after it, as before an arrow. */
  lemma PointSpaceAfter(p: Point)
    requires InRange(p)
    ensures ParsePoint(ShowPoint(p) + " ") == Ok(p)
  {
    var a, b := ShowInt(p.x), ShowInt(p.y);
    IntText(p.x);
    IntText(p.y);
    AppendRight(a, ",", b, " ");
    ParsePointParts(ShowPoint(p) + " ", a, b + " ", p.x, p.y);
  }

  /** So does a written point with a space before it, as after an arrow. */
  lemma PointSpaceBefore(p: Point)
    requires InRange(p)
    ensures ParsePoint(" " + ShowPoint(p)) == Ok(p)
  {
    var a, b := ShowInt(p.x), ShowInt(p.y);
    IntText(p.x);
    IntText(p.y);
    AppendLeft(" ", a, ",", b);
    ParsePointParts(" " + ShowPoint(p), " " + a, b, p.x, p.y);
  }

  lemma AppendLeft<T>(p: seq<T>, a: seq<T>, c: seq<T>, b: seq<T>)
    ensures p + (a + c + b) == (p + a) + c + b
  {
  }

  lemma AppendRight<T>(a: seq<T>, c: seq<T>, b: seq<T>, q: seq<T>)
    ensures (a + c + b) + q == a + c + (b + q)
  {
  }

  /** A point needs a comma. */
  lemma PointNeedsComma(s: string)
    requires ',' !in s
    ensures ParsePoint(s).Err?
  {
  }

  /** Two points around the first "->" make a line. */
  lemma ParseLineParts(s: string, xs: string, ys: string, a: Point, b: Point)
    requires s == xs + "->" + ys && '>' !in xs
    requires ParsePoint(xs) == Ok(a) && ParsePoint(ys) == Ok(b)
    ensures ParseLine(s) == Ok(Line(a, b))
  {
    assert "->"[..1] == "-";
    assert '>' !in xs + "-";
    SplitOnceStrOf(xs, ys, "->");
  }

  /** A written point holds no '>'. */
  lemma PointNoArrow(p: Point)
    requires InRange(p)
    ensures '>' !in ShowPoint(p) + " "
  {
    IntText(p.x);
    IntText(p.y);
  }

  /** A line written out reads back as itself. */
  lemma LineRoundTrip(l: Line)
    requires InRange(l.start) && InRange(l.end)
    ensures ParseLine(ShowLine(l)) == Ok(l)
  {
    var a, b := ShowPoint(l.start), ShowPoint(l.end);
    PointNoArrow(l.start);
    PointSpaceAfter(l.start);
    PointSpaceBefore(l.end);
    AppendRight(a + " ", "->", " ", b);
    ParseLineParts(ShowLine(l), a + " ", " " + b, l.start, l.end);
  }

  /** A line needs an arrow. */
  lemma LineNeedsArrow(s: string)
    requires forall i :: 0 <= i <= |s| ==> !OccursAt(s, "->", i)
    ensures ParseLine(s).Err?
  {
  }

  /** The lines are read exactly when every text line is a line, and then
      line `i` is text line `i` read. */
  lemma LinesIff(ls: seq<string>)
    ensures ParseLines(ls).Ok? <==> forall i :: 0 <= i < |ls| ==> ParseLine(ls[i]).Ok?
    ensures ParseLines(ls).Ok? ==> |ParseLines(ls).value| == |ls|
    ensures ParseLines(ls).Ok? ==> forall i :: 0 <= i < |ls| ==> ParseLine(ls[i]) == Ok(ParseLines(ls).value[i])
  {
    var rs := seq(|ls|, i requires 0 <= i < |ls| => ParseLine(ls[i]));
    CollectIff(rs);
    assert forall i :: 0 <= i < |ls| ==> rs[i] == ParseLine(ls[i]);
  }

  /** Each line written out. */
  function Shown(lines: seq<Line>): seq<string> {
    seq(|lines|, i requires 0 <= i < |lines| => ShowLine(lines[i]))
  }

  /** The lines written out one per line. */
  function ShowField(lines: seq<Line>): string {
    Unlines(Shown(lines))
  }

  /** The text lines of a written field are the written lines. */
  lemma LinesOfField(lines: seq<Line>)
    ensures Lines(ShowField(lines)) == Shown(lines)
  {
    var ts := Shown(lines);
    forall i | 0 <= i < |ts|
      ensures '\n' !in ts[i] && StripCR(ts[i]) == ts[i]
    {
      LinePlain(lines[i]);
    }
    LinesUnlines(ts);
  }

  /** The written lines read back as the lines. */
  lemma ParseShown(lines: seq<Line>)
    requires forall i :: 0 <= i < |lines| ==> InRange(lines[i].start) && InRange(lines[i].end)
    ensures ParseLines(Shown(lines)) == Ok(lines)
  {
    var ts := Shown(lines);
    var rs := seq(|ts|, i requires 0 <= i < |ts| => ParseLine(ts[i]));
    forall i | 0 <= i < |ts|
      ensures rs[i] == Ok(lines[i])
    {
      LineRoundTrip(lines[i]);
    }
    CollectAll(rs, lines);
  }

  /** A field written out reads back as itself. */
  lemma FieldRoundTrip(lines: seq<Line>, diagonals: bool)
    requires forall i :: 0 <= i < |lines| ==> InRange(lines[i].start) && InRange(lines[i].end)
    ensures ParseField(ShowField(lines), diagonals) == Ok(Field(lines, diagonals))
  {
    LinesOfField(lines);
    ParseShown(lines);
  }

  /** A written line has no newline and does not end in a carriage return. */
  lemma LinePlain(l: Line)
    ensures '\n' !in ShowLine(l) && StripCR(ShowLine(l)) == ShowLine(l)
  {
    ShowIntChars(l.start.x);
    ShowIntChars(l.start.y);
    ShowIntChars(l.end.x);
    ShowIntChars(l.end.y);
    SignedPlain(ShowInt(l.start.x));
    SignedPlain(ShowInt(l.start.y));
    SignedPlain(ShowInt(l.end.x));
    SignedPlain(ShowInt(l.end.y));
    var t := ShowLine(l);
    var y := ShowInt(l.end.y);
    assert t[|t| - 1] == y[|y| - 1];
  }

  /* ---------------------------------------------------------------------
     The examples of the source's tests
     --------------------------------------------------------------------- */

  /** Three steps' walk, spelled out. */
  lemma WalkThree(c: Point, d: Point)
    ensures Walk(c, d, 2) == [c, Add(c, d), Add(Add(c, d), d)]
  {
    WalkStep(c, d, 2);
    WalkStep(Add(c, d), d, 1);
    WalkStep(Add(Add(c, d), d), d, 0);
  }

  /** The iterator tests' vertical line of three points. */
  lemma VerticalExample()
    ensures Rasterize(Line(Point(1, 0), Point(1, 2)), false) == [Point(1, 0), Point(1, 1), Point(1, 2)]
  {
    var l := Line(Point(1, 0), Point(1, 2));
    assert Span(l, false) == 2 && Unit(Sub(l.end, l.start)) == Point(0, 1);
    WalkThree(Point(1, 0), Point(0, 1));
  }

  /** The iterator tests' horizontal line of three points. */
  lemma HorizontalExample()
    ensures Rasterize(Line(Point(0, 1), Point(2, 1)), false) == [Point(0, 1), Point(1, 1), Point(2, 1)]
  {
    var l := Line(Point(0, 1), Point(2, 1));
    assert Span(l, false) == 2 && Unit(Sub(l.end, l.start)) == Point(1, 0);
    WalkThree(Point(0, 1), Point(1, 0));
  }

  /** The iterator tests' lines that yield nothing: a single point, a
      45-degree line without diagonals, and a steeper line with them. */
  lemma EmptyExamples()
    ensures Rasterize(Line(Point(1, 1), Point(1, 1)), false) == []
    ensures Rasterize(Line(Point(1, 1), Point(2, 2)), false) == []
    ensures Rasterize(Line(Point(1, 1), Point(2, 3)), true) == []
  {
    assert Span(Line(Point(1, 1), Point(1, 1)), false) == -1;
    assert Span(Line(Point(1, 1), Point(2, 2)), false) == -1;
    assert Span(Line(Point(1, 1), Point(2, 3)), true) == -1;
  }

  /** The iterator tests' 45-degree lines with diagonals. */
  lemma DiagonalExamples()
    ensures Rasterize(Line(Point(1, 1), Point(2, 2)), true) == [Point(1, 1), Point(2, 2)]
    ensures Rasterize(Line(Point(3, 1), Point(1, 3)), true) == [Point(3, 1), Point(2, 2), Point(1, 3)]
  {
    assert Span(Line(Point(1, 1), Point(2, 2)), true) == 1;
    assert Unit(Sub(Point(2, 2), Point(1, 1))) == Point(1, 1);
    WalkStep(Point(1, 1), Point(1, 1), 1);
    WalkStep(Point(2, 2), Point(1, 1), 0);
    assert Span(Line(Point(3, 1), Point(1, 3)), true) == 2;
    assert Unit(Sub(Point(1, 3), Point(3, 1))) == Point(-1, 1);
    WalkThree(Point(3, 1), Point(-1, 1));
  }

  /** The texts of the parse tests are written points and lines. */
  lemma ExampleTexts()
    ensures ShowPoint(Point(1, 2)) == "1,2" && ShowPoint(Point(3, 4)) == "3,4"
    ensures ShowLine(Line(Point(1, 2), Point(3, 4))) == "1,2 -> 3,4"
  {
    assert ShowInt(1) == "1" && ShowInt(2) == "2";
    assert ShowInt(3) == "3" && ShowInt(4) == "4";
  }

  /** The parse tests: "1,2" is the point (1, 2), and "1,2 -> 3,4" the
      line from it to (3, 4). */
  lemma ParseExamples()
    ensures ParsePoint("1,2") == Ok(Point(1, 2))
    ensures ParseLine("1,2 -> 3,4") == Ok(Line(Point(1, 2), Point(3, 4)))
  {
    ExampleTexts();
    PointRoundTrip(Point(1, 2));
    LineRoundTrip(Line(Point(1, 2), Point(3, 4)));
  }
}
