/** Shared vocabulary for the puzzle kernels: optional and fallible results,
    the integer widths the kernels parse into, and the handful of Rust string
    operations the parsers are built from (`trim`, `split`, `splitn(2, ..)`,
    `lines`, `to_lowercase`, integer `parse`). */
module Common {

  datatype Option<T> = None | Some(value: T)

  /** A parse or lookup that can fail. The kernels' error messages are not
      modelled: only whether an input fails. */
  datatype Result<T> = Ok(value: T) | Err

  // Integer widths (usize is taken to be 64 bits wide).
  const U8Max: nat := 0xFF
  const U64Max: nat := 0xFFFF_FFFF_FFFF_FFFF
  const USizeMax: nat := U64Max
  const I64Min: int := -0x8000_0000_0000_0000
  const I64Max: int := 0x7FFF_FFFF_FFFF_FFFF

  /** The product of two naturals, kept apart so that its range check is
      made once, outside the callers' larger proofs. */
  function Mul(a: nat, b: nat): nat {
    a * b
  }

  /** `collect::<Result<Vec<_>, _>>()`: the values when every result is
      one, else the failure. */
  function Collect<T>(rs: seq<Result<T>>): Result<seq<T>> {
    if rs == [] then Ok([])
    else match rs[0]
      case Err => Err
      case Ok(v) =>
        match Collect(rs[1..])
        case Err => Err
        case Ok(vs) => Ok([v] + vs)
  }

  /** Collecting succeeds exactly when every result is a value, and then
      gives the values in order. */
  lemma {:induction false} CollectIff<T>(rs: seq<Result<T>>)
    ensures Collect(rs).Ok? <==> forall i :: 0 <= i < |rs| ==> rs[i].Ok?
    ensures Collect(rs).Ok? ==> |Collect(rs).value| == |rs|
    ensures Collect(rs).Ok? ==> forall i :: 0 <= i < |rs| ==> rs[i] == Ok(Collect(rs).value[i])
  {
    if rs != [] {
      CollectIff(rs[1..]);
      assert forall i :: 0 < i < |rs| ==> rs[1..][i - 1] == rs[i];
    }
  }

  /** Results that are all the given values collect to those values. */
  lemma CollectAll<T>(rs: seq<Result<T>>, vs: seq<T>)
    requires |rs| == |vs| && forall i :: 0 <= i < |rs| ==> rs[i] == Ok(vs[i])
    ensures Collect(rs) == Ok(vs)
  {
    CollectIff(rs);
    assert Collect(rs).value == vs;
  }

  /* ---------------------------------------------------------------------
     Whitespace and `trim`
     --------------------------------------------------------------------- */

  /** The Unicode White_Space property, which Rust's `char::is_whitespace`
      (and hence `str::trim`) uses. */
  predicate IsWhitespace(c: char) {
    || c == ' '
    || ('\t' <= c <= '\r')
    || c == '\U{85}' || c == '\U{A0}' || c == '\U{1680}'
    || ('\U{2000}' <= c <= '\U{200A}')
    || c == '\U{2028}' || c == '\U{2029}' || c == '\U{202F}' || c == '\U{205F}'
    || c == '\U{3000}'
  }

  /** `str::trim_start`: the longest suffix that does not begin with whitespace. */
  function TrimStart(s: string): (r: string)
    ensures |r| <= |s| && r == s[|s| - |r|..]
    ensures r != [] ==> !IsWhitespace(r[0])
    ensures forall i :: 0 <= i < |s| - |r| ==> IsWhitespace(s[i])
  {
    if s != [] && IsWhitespace(s[0]) then
      var r := TrimStart(s[1..]);
      assert forall i :: 1 <= i < |s| - |r| ==> s[i] == s[1..][i - 1];
      r
    else s
  }

  /** `str::trim_end`: the longest prefix that does not end with whitespace. */
  function TrimEnd(s: string): (r: string)
    ensures |r| <= |s| && r == s[..|r|]
    ensures r != [] ==> !IsWhitespace(r[|r| - 1])
    ensures forall i :: |r| <= i < |s| ==> IsWhitespace(s[i])
  {
    if s != [] && IsWhitespace(s[|s| - 1]) then
      var r := TrimEnd(s[..|s| - 1]);
      assert forall i :: |r| <= i < |s| - 1 ==> s[i] == s[..|s| - 1][i];
      r
    else s
  }

  /** `str::trim`. */
  function Trim(s: string): string {
    TrimEnd(TrimStart(s))
  }

  /** A string that neither begins nor ends with whitespace is its own
      trim. */
  lemma TrimPlain(s: string)
    requires s != [] && !IsWhitespace(s[0]) && !IsWhitespace(s[|s| - 1])
    ensures Trim(s) == s
  {
  }

  /** A space before or after such a string is trimmed away. */
  lemma TrimSpaced(s: string)
    requires s != [] && !IsWhitespace(s[0]) && !IsWhitespace(s[|s| - 1])
    ensures Trim(" " + s) == s && Trim(s + " ") == s
  {
    assert (" " + s)[1..] == s;
    assert (s + " ")[..|s|] == s;
    assert TrimStart(s + " ") == s + " ";
  }

  /* ---------------------------------------------------------------------
     Splitting and joining
     --------------------------------------------------------------------- */

  /** `pieces` joined with the separator `c` between consecutive pieces. */
  function Join(pieces: seq<string>, c: char): string
    requires |pieces| >= 1
  {
    if |pieces| == 1 then pieces[0] else pieces[0] + [c] + Join(pieces[1..], c)
  }

  /** `str::split(c)`: the pieces between occurrences of `c`; there is always
      at least one. */
  function Split(s: string, c: char): (r: seq<string>)
    ensures |r| >= 1
    ensures forall i :: 0 <= i < |r| ==> c !in r[i]
  {
    if s == [] then [[]]
    else if s[0] == c then [[]] + Split(s[1..], c)
    else
      var rest := Split(s[1..], c);
      [[s[0]] + rest[0]] + rest[1..]
  }

  /** Joining the pieces of a split with the separator gives the input back. */
  lemma {:induction false} JoinSplit(s: string, c: char)
    ensures Join(Split(s, c), c) == s
  {
    if s == [] {
    } else if s[0] == c {
      JoinSplit(s[1..], c);
      assert Split(s, c)[1..] == Split(s[1..], c);
    } else {
      JoinSplit(s[1..], c);
      var rest := Split(s[1..], c);
      var r := Split(s, c);
      assert r[1..] == rest[1..];
      if |rest| > 1 {
        calc {
          Join(r, c);
          ([s[0]] + rest[0]) + [c] + Join(rest[1..], c);
          [s[0]] + (rest[0] + [c] + Join(rest[1..], c));
          [s[0]] + Join(rest, c);
        }
      }
    }
  }

  /** Splitting a joined list gives back the pieces, provided no piece holds
      the separator. */
  lemma {:induction false} SplitJoin(pieces: seq<string>, c: char)
    requires |pieces| >= 1
    requires forall i :: 0 <= i < |pieces| ==> c !in pieces[i]
    ensures Split(Join(pieces, c), c) == pieces
  {
    if |pieces| == 1 {
      SplitNoSeparator(pieces[0], c);
    } else {
      SplitJoin(pieces[1..], c);
      SplitAfterPiece(pieces[0], Join(pieces[1..], c), c);
    }
  }

  lemma {:induction false} SplitNoSeparator(s: string, c: char)
    requires c !in s
    ensures Split(s, c) == [s]
  {
    if s != [] {
      SplitNoSeparator(s[1..], c);
      assert [s[0]] + s[1..] == s;
    }
  }

  lemma {:induction false} SplitAfterPiece(a: string, b: string, c: char)
    requires c !in a
    ensures Split(a + [c] + b, c) == [a] + Split(b, c)
  {
    if a != [] {
      assert (a + [c] + b)[1..] == a[1..] + [c] + b;
      SplitAfterPiece(a[1..], b, c);
      var rest := Split(a[1..] + [c] + b, c);
      assert rest == [a[1..]] + Split(b, c);
      assert [a[0]] + rest[0] == a;
      assert rest[1..] == Split(b, c);
    } else {
      assert (a + [c] + b)[1..] == b;
    }
  }

  /** A trailing separator adds one empty piece. */
  lemma {:induction false} SplitTrailingSeparator(s: string, c: char)
    ensures Split(s + [c], c) == Split(s, c) + [[]]
  {
    if s == [] {
      assert [c][1..] == [];
    } else {
      assert (s + [c])[1..] == s[1..] + [c];
      SplitTrailingSeparator(s[1..], c);
    }
  }

  /** A leading separator makes the first piece empty. */
  lemma SplitLeadingSeparator(s: string, c: char)
    ensures Split([c] + s, c) == [[]] + Split(s, c)
  {
    assert ([c] + s)[1..] == s;
  }

  /** The index of the first occurrence of `c` in `s`. */
  function IndexOf(s: string, c: char): (r: Option<nat>)
    ensures r.None? <==> c !in s
    ensures r.Some? ==> r.value < |s| && s[r.value] == c && c !in s[..r.value]
  {
    if s == [] then None
    else if s[0] == c then Some(0)
    else match IndexOf(s[1..], c)
      case None => None
      case Some(i) => assert s[1..][..i] == s[1..i + 1]; Some(i + 1)
  }

  /** `str::splitn(2, c)`: the text before the first `c` and, when there is
      one, the text after it. */
  function SplitOnce(s: string, c: char): (r: (string, Option<string>))
    ensures r.1.None? ==> c !in s && r.0 == s
    ensures r.1.Some? ==> c !in r.0 && s == r.0 + [c] + r.1.value
  {
    match IndexOf(s, c)
    case None => (s, None)
    case Some(i) => assert s == s[..i] + [c] + s[i + 1..]; (s[..i], Some(s[i + 1..]))
  }

  /** Splitting at a separator absent from the first piece gives the two
      pieces back. */
  lemma SplitOnceOf(a: string, b: string, c: char)
    requires c !in a
    ensures SplitOnce(a + [c] + b, c) == (a, Some(b))
  {
    var s := a + [c] + b;
    var r := SplitOnce(s, c);
    assert s[|a|] == c;
    assert forall j :: 0 <= j < |a| ==> s[j] == a[j];
    assert r.1.Some?;
    assert s[|r.0|] == c;
    assert forall j :: 0 <= j < |r.0| ==> s[j] == r.0[j];
    assert |r.0| == |a|;
    assert r.0 == s[..|a|] == a;
  }

  /** Whether `pat` occurs in `s` starting at index `i`. */
  predicate OccursAt(s: string, pat: string, i: nat) {
    i + |pat| <= |s| && s[i..i + |pat|] == pat
  }

  /** The index of the first occurrence of the non-empty pattern `pat`. */
  function IndexOfStr(s: string, pat: string, from: nat): (r: Option<nat>)
    requires from <= |s|
    ensures r.None? ==> forall i :: from <= i <= |s| ==> !OccursAt(s, pat, i)
    ensures r.Some? ==> from <= r.value && OccursAt(s, pat, r.value)
    ensures r.Some? ==> forall i :: from <= i < r.value ==> !OccursAt(s, pat, i)
    decreases |s| - from
  {
    if from + |pat| > |s| then None
    else if s[from..from + |pat|] == pat then Some(from)
    else if from == |s| then None
    else IndexOfStr(s, pat, from + 1)
  }

  /** `str::splitn(2, pat)` for a string pattern. */
  function SplitOnceStr(s: string, pat: string): (r: (string, Option<string>))
    ensures r.1.None? ==> r.0 == s && forall i :: 0 <= i <= |s| ==> !OccursAt(s, pat, i)
    ensures r.1.Some? ==> s == r.0 + pat + r.1.value
    ensures r.1.Some? ==> forall i :: 0 <= i < |r.0| ==> !OccursAt(s, pat, i)
  {
    match IndexOfStr(s, pat, 0)
    case None => (s, None)
    case Some(i) =>
      assert s == s[..i] + s[i..i + |pat|] + s[i + |pat|..];
      (s[..i], Some(s[i + |pat|..]))
  }

  /** Splitting at a pattern whose last character occurs neither in the
      first piece nor earlier in the pattern gives the two pieces back. */
  lemma SplitOnceStrOf(a: string, b: string, pat: string)
    requires |pat| >= 1 && pat[|pat| - 1] !in a + pat[..|pat| - 1]
    ensures SplitOnceStr(a + pat + b, pat) == (a, Some(b))
  {
    var s := a + pat + b;
    var last := |pat| - 1;
    assert OccursAt(s, pat, |a|) by {
      assert s[|a|..|a| + |pat|] == pat;
    }
    var r := SplitOnceStr(s, pat);
    assert r.1.Some?;
    var n := |r.0|;
    assert s[n..n + |pat|] == pat;
    assert s[n + last] == pat[last];
    assert forall j :: 0 <= j < |a| + last ==> s[j] == (a + pat[..last])[j];
    assert n == |a|;
    assert r.0 == s[..n] == a;
    assert r.1.value == s[n + |pat|..] == b;
  }

  /** A line with one trailing carriage return removed, as `lines` does for
      every line that ends in "\r\n". */
  function StripCR(line: string): (r: string)
    ensures |r| <= |line| && r == line[..|r|]
  {
    if line != [] && line[|line| - 1] == '\r' then line[..|line| - 1] else line
  }

  /** `str::lines`: the text up to each line feed, each line losing one
      '\r' before its line feed; text after the last line feed, when there
      is any, is a final line (keeping a trailing '\r'). */
  function Lines(s: string): (r: seq<string>)
    ensures forall i :: 0 <= i < |r| ==> '\n' !in r[i]
    decreases |s|
  {
    if s == [] then []
    else match IndexOf(s, '\n')
      case None => [s]
      case Some(i) => [StripCR(s[..i])] + Lines(s[i + 1..])
  }

  /** Every line of `ls`, each followed by a line feed. */
  function Unlines(ls: seq<string>): string {
    if ls == [] then [] else ls[0] + "\n" + Unlines(ls[1..])
  }

  /** Lines written out one per line come back out of `lines` unchanged,
      provided none of them ends in a carriage return. */
  lemma {:induction false} LinesUnlines(ls: seq<string>)
    requires forall i :: 0 <= i < |ls| ==> '\n' !in ls[i] && StripCR(ls[i]) == ls[i]
    ensures Lines(Unlines(ls)) == ls
  {
    if ls != [] {
      assert Unlines(ls) == ls[0] + ['\n'] + Unlines(ls[1..]);
      LinesCons(ls[0], Unlines(ls[1..]));
      LinesUnlines(ls[1..]);
    }
  }

  /** A newline-terminated first line comes out of `lines` first. */
  lemma LinesCons(a: string, rest: string)
    requires '\n' !in a
    ensures Lines(a + ['\n'] + rest) == [StripCR(a)] + Lines(rest)
  {
    var s := a + ['\n'] + rest;
    assert s[|a|] == '\n' && s[..|a|] == a && s[|a| + 1..] == rest;
  }

  /* ---------------------------------------------------------------------
     Letters
     --------------------------------------------------------------------- */

  /** ASCII lower-casing. Rust's `to_lowercase` is Unicode-wide, but the only
      non-ASCII character that lower-cases to a single ASCII letter is the
      Kelvin sign (to 'k'), so for matching the keywords of this program,
      which contain no 'k', the two agree. */
  function LowerChar(c: char): char {
    if 'A' <= c <= 'Z' then (c as int - 'A' as int + 'a' as int) as char else c
  }

  function Lower(s: string): (r: string)
    ensures |r| == |s|
    ensures forall i :: 0 <= i < |s| ==> r[i] == LowerChar(s[i])
  {
    if s == [] then [] else [LowerChar(s[0])] + Lower(s[1..])
  }

  /* ---------------------------------------------------------------------
     Decimal integers
     --------------------------------------------------------------------- */

  predicate IsDigit(c: char) {
    '0' <= c <= '9'
  }

  predicate AllDigits(s: string) {
    forall i :: 0 <= i < |s| ==> IsDigit(s[i])
  }

  function DigitValue(c: char): nat
    requires IsDigit(c)
  {
    c as int - '0' as int
  }

  /** The value of a string of decimal digits, most significant first. */
  function DigitsValue(s: string): nat
    requires AllDigits(s)
  {
    if s == [] then 0 else 10 * DigitsValue(s[..|s| - 1]) + DigitValue(s[|s| - 1])
  }

  /** A non-empty digit string whose value is at most `max`. */
  function ParseDigits(s: string, max: nat): (r: Option<nat>)
    ensures r.Some? <==> s != [] && AllDigits(s) && DigitsValue(s) <= max
    ensures r.Some? ==> r.value == DigitsValue(s) && r.value <= max
  {
    if s != [] && AllDigits(s) && DigitsValue(s) <= max then Some(DigitsValue(s)) else None
  }

  /** Rust's `str::parse` for an unsigned integer type whose largest value is
      `max`: an optional '+', then one or more decimal digits, no whitespace. */
  function ParseUnsigned(s: string, max: nat): Option<nat> {
    if s != [] && s[0] == '+' then ParseDigits(s[1..], max) else ParseDigits(s, max)
  }

  /** Rust's `str::parse` for a signed integer type with range [min, max]:
      an optional '+' or '-', then one or more decimal digits. */
  function ParseSigned(s: string, min: int, max: nat): Option<int>
    requires min <= 0
  {
    if s != [] && s[0] == '-' then
      match ParseDigits(s[1..], -min)
      case None => None
      case Some(v) => Some(-(v as int))
    else if s != [] && s[0] == '+' then
      match ParseDigits(s[1..], max)
      case None => None
      case Some(v) => Some(v as int)
    else
      match ParseDigits(s, max)
      case None => None
      case Some(v) => Some(v as int)
  }

  /** The parsed value is in range, and a successful parse read digits only
      (after an optional '+'). */
  lemma ParseUnsignedSound(s: string, max: nat)
    ensures ParseUnsigned(s, max).Some? ==> ParseUnsigned(s, max).value <= max
    ensures ParseUnsigned(s, max).Some? ==> |s| >= 1 && (IsDigit(s[0]) || s[0] == '+')
    ensures ParseUnsigned(s, max).Some? ==> forall i :: 1 <= i < |s| ==> IsDigit(s[i])
  {
    if ParseUnsigned(s, max).Some? && s[0] == '+' {
      assert forall i :: 1 <= i < |s| ==> s[i] == s[1..][i - 1];
    }
  }

  function DigitChar(d: nat): (c: char)
    requires d < 10
    ensures IsDigit(c) && DigitValue(c) == d
  {
    ('0' as int + d) as char
  }

  /** The decimal text of `n`, without leading zeros. */
  function ShowNat(n: nat): (r: string)
    decreases n
  {
    if n < 10 then [DigitChar(n)] else ShowNat(n / 10) + [DigitChar(n % 10)]
  }

  /** `ShowNat` writes digits only, and reading them back gives `n`. */
  lemma {:induction false} ShowNatDigits(n: nat)
    ensures ShowNat(n) != [] && AllDigits(ShowNat(n))
    ensures DigitsValue(ShowNat(n)) == n
    decreases n
  {
    if n >= 10 {
      ShowNatDigits(n / 10);
      var s := ShowNat(n);
      assert s[..|s| - 1] == ShowNat(n / 10);
    }
  }

  /** Round trip: parsing the decimal text of an in-range number gives it back. */
  lemma ParseShowNat(n: nat, max: nat)
    requires n <= max
    ensures ParseUnsigned(ShowNat(n), max) == Some(n)
  {
    ShowNatDigits(n);
  }

  /** The decimal text of `v`, with a '-' in front when it is negative. */
  function ShowInt(v: int): string {
    if v < 0 then "-" + ShowNat(-v) else ShowNat(v)
  }

  /** `ShowInt` writes a '-' at most at its start and digits otherwise: it
      is not empty, ends in a digit and holds no whitespace. */
  lemma ShowIntChars(v: int)
    ensures SignedDigits(ShowInt(v))
  {
    if v < 0 {
      var t := ShowNat(-v);
      ShowNatDigits(-v);
      var s := "-" + t;
      assert forall i :: 1 <= i < |s| ==> s[i] == t[i - 1];
      assert s[|s| - 1] == t[|t| - 1];
    } else {
      ShowNatDigits(v);
    }
  }

  /** A '-' or a digit, then digits, ending in a digit. */
  predicate SignedDigits(s: string) {
    && s != [] && IsDigit(s[|s| - 1])
    && (IsDigit(s[0]) || s[0] == '-')
    && forall i :: 1 <= i < |s| ==> IsDigit(s[i])
  }

  /** The text of a signed number is its own trim, also with a space
      before or after it. */
  lemma SignedTrim(s: string)
    requires SignedDigits(s)
    ensures Trim(s) == s && Trim(" " + s) == s && Trim(s + " ") == s
  {
    assert !IsWhitespace(s[0]) && !IsWhitespace(s[|s| - 1]);
    TrimPlain(s);
    TrimSpaced(s);
  }

  /** Round trip: parsing the text of an in-range integer gives it back. */
  lemma ParseShowInt(v: int, min: int, max: nat)
    requires min <= 0 && min <= v <= max
    ensures ParseSigned(ShowInt(v), min, max) == Some(v)
  {
    if v < 0 {
      ParseShowNegative(-v, min, max);
    } else {
      ParseShowNonNegative(v, min, max);
    }
  }

  lemma ParseShowNonNegative(n: nat, min: int, max: nat)
    requires min <= 0 && n <= max
    ensures ParseSigned(ShowNat(n), min, max) == Some(n as int)
  {
    ShowNatDigits(n);
    var s := ShowNat(n);
    assert IsDigit(s[0]);
    assert ParseDigits(s, max) == Some(n);
  }

  lemma ParseShowNegative(n: nat, min: int, max: nat)
    requires min <= 0 && 0 < n <= -min
    ensures ParseSigned("-" + ShowNat(n), min, max) == Some(-(n as int))
  {
    ShowNatDigits(n);
    var s := "-" + ShowNat(n);
    assert s[0] == '-' && s[1..] == ShowNat(n);
    assert ParseDigits(s[1..], -min) == Some(n);
  }

  /** Parsing fails on the empty string and on a leading '-'. */
  lemma ParseUnsignedRejects(t: string, max: nat)
    ensures ParseUnsigned("", max) == None
    ensures ParseUnsigned("-" + t, max) == None
  {
    assert ("-" + t)[0] == '-';
    assert !IsDigit('-');
  }
}
