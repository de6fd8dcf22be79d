/** Day 1, part 2: sum each run of three consecutive depth readings and count
    how often such a window sum is strictly larger than the one before. The
    windows come from a fixed circular buffer of N slots: reading i
    overwrites slot i % N, and a copy of the buffer is yielded once N
    readings have been seen. */
module Day01Part2 {
  import Day01

  function Sum(w: seq<nat>): nat {
    if w == [] then 0 else w[0] + Sum(w[1..])
  }

  lemma {:induction false} SumConcat(a: seq<nat>, b: seq<nat>)
    ensures Sum(a + b) == Sum(a) + Sum(b)
  {
    if a != [] {
      assert (a + b)[1..] == a[1..] + b;
      SumConcat(a[1..], b);
    } else {
      assert a + b == b;
    }
  }

  /** `w` rotated right by `r` places: its last `r` elements move to the front. */
  function RotateRight(w: seq<nat>, r: nat): seq<nat>
    requires r <= |w|
  {
    w[|w| - r..] + w[..|w| - r]
  }

  /** A rotation has the same sum. */
  lemma RotatedSum(w: seq<nat>, r: nat)
    requires r <= |w|
    ensures Sum(RotateRight(w, r)) == Sum(w)
  {
    var front, back := w[..|w| - r], w[|w| - r..];
    assert RotateRight(w, r) == back + front;
    SumConcat(back, front);
    SumConcat(front, back);
    assert front + back == w;
  }

  /** Euclidean division is determined by its defining equation. */
  lemma DivModUnique(x: int, n: int, q: int, r: int)
    requires n >= 1 && 0 <= r < n && x == q * n + r
    ensures x / n == q && x % n == r
  {
    var q', r' := x / n, x % n;
    assert x == q' * n + r';
    assert (q - q') * n == r' - r;
    if q' < q {
      MulAtLeast(q - q', n);
    } else if q < q' {
      MulAtLeast(q' - q, n);
    }
  }

  lemma MulAtLeast(a: int, n: int)
    requires a >= 1 && n >= 1
    ensures a * n >= n
  {
  }

  /** The buffer slot that reading i is written to: slots are used in
      turn, wrapping back to 0 after the last one. */
  function Slot(i: nat, n: nat): (r: nat)
    requires n >= 1
    ensures r < n
  {
    if i == 0 then 0
    else
      var p := Slot(i - 1, n);
      if p + 1 == n then 0 else p + 1
  }

  /** The slot as `windowed` computes it, i % n. */
  function SlotIndex(i: nat, n: nat): (r: nat)
    requires n >= 1
    ensures r == Slot(i, n)
  {
    SlotIsMod(i, n);
    i % n
  }

  /** While the buffer fills, reading i goes to slot i. */
  lemma {:induction false} SlotBelow(i: nat, n: nat)
    requires i < n
    ensures Slot(i, n) == i
  {
    if i > 0 {
      SlotBelow(i - 1, n);
    }
  }

  /** Slots repeat every n readings. */
  lemma {:induction false} SlotPeriodic(k: nat, n: nat)
    requires n >= 1
    ensures Slot(k + n, n) == Slot(k, n)
  {
    if k == 0 {
      SlotBelow(n - 1, n);
    } else {
      SlotPeriodic(k - 1, n);
    }
  }

  /** Taking slots in turn is taking i % n, as `windowed` does. */
  lemma {:induction false} SlotIsMod(i: nat, n: nat)
    requires n >= 1
    ensures Slot(i, n) == i % n
  {
    if i == 0 {
      DivModUnique(0, n, 0, 0);
    } else {
      var q, r := (i - 1) / n, (i - 1) % n;
      assert i - 1 == q * n + r;
      assert 0 <= r < n;
      SlotIsMod(i - 1, n);
      assert Slot(i, n) == if r + 1 == n then 0 else r + 1;
      if r + 1 == n {
        assert i == (q + 1) * n + 0;
        DivModUnique(i, n, q + 1, 0);
      } else {
        assert i == q * n + (r + 1);
        DivModUnique(i, n, q, r + 1);
      }
    }
  }

  function Zeros(m: nat): (z: seq<nat>)
    ensures |z| == m && forall j :: 0 <= j < m ==> z[j] == 0
  {
    seq(m, _ => 0)
  }

  /** Before the buffer is full: readings so far, then the initial zeros. */
  lemma FillStep(input: seq<nat>, i: nat, n: nat)
    requires i < n && i < |input|
    ensures (input[..i] + Zeros(n - i))[i := input[i]] == input[..i + 1] + Zeros(n - i - 1)
  {
  }

  /** Once full: overwriting slot i % n turns the rotated last n readings
      into the rotated last n readings one step on. */
  lemma RotateStep(input: seq<nat>, i: nat, n: nat)
    requires n >= 1 && n <= i < |input|
    ensures RotateRight(input[i - n..i], Slot(i, n))[Slot(i, n) := input[i]]
         == RotateRight(input[i + 1 - n..i + 1], Slot(i + 1, n))
  {
    var old_ := RotateRight(input[i - n..i], Slot(i, n))[Slot(i, n) := input[i]];
    var new_ := RotateRight(input[i + 1 - n..i + 1], Slot(i + 1, n));
    forall j | 0 <= j < n
      ensures old_[j] == new_[j]
    {
      RotateStepAt(input, i, n, j);
    }
  }

  /** ... slot by slot: slot j holds the same reading before and after. */
  lemma RotateStepAt(input: seq<nat>, i: nat, n: nat, j: nat)
    requires n >= 1 && n <= i < |input| && j < n
    ensures RotateRight(input[i - n..i], Slot(i, n))[Slot(i, n) := input[i]][j]
         == RotateRight(input[i + 1 - n..i + 1], Slot(i + 1, n))[j]
  {
    var r := Slot(i, n);
    if j == r {
      RotateStepWritten(input, i, n);
    } else {
      RotateStepKept(input, i, n, j);
    }
  }

  /** The slot just written holds reading i, the newest of the next window. */
  lemma RotateStepWritten(input: seq<nat>, i: nat, n: nat)
    requires n >= 1 && n <= i < |input|
    ensures RotateRight(input[i - n..i], Slot(i, n))[Slot(i, n) := input[i]][Slot(i, n)]
         == RotateRight(input[i + 1 - n..i + 1], Slot(i + 1, n))[Slot(i, n)]
  {
    var r, r2 := Slot(i, n), Slot(i + 1, n);
    var b := input[i + 1 - n..i + 1];
    assert r2 == if r + 1 == n then 0 else r + 1;
    RotateRightAt(b, r2, r);
    assert RotateRight(b, r2)[r] == b[n - 1];
  }

  /** Every other slot keeps its reading, which the next window holds there too. */
  lemma RotateStepKept(input: seq<nat>, i: nat, n: nat, j: nat)
    requires n >= 1 && n <= i < |input| && j < n && j != Slot(i, n)
    ensures RotateRight(input[i - n..i], Slot(i, n))[j]
         == RotateRight(input[i + 1 - n..i + 1], Slot(i + 1, n))[j]
  {
    var r, r2 := Slot(i, n), Slot(i + 1, n);
    var a, b := input[i - n..i], input[i + 1 - n..i + 1];
    assert r2 == if r + 1 == n then 0 else r + 1;
    RotateRightAt(a, r, j);
    RotateRightAt(b, r2, j);
    var rhs := RotateRight(b, r2)[j];
    if j < r {
      assert RotateRight(a, r)[j] == a[n - r + j] == input[i - r + j];
      if r + 1 == n {
        assert rhs == b[j];
      } else {
        assert rhs == b[n - r2 + j];
      }
    } else {
      assert RotateRight(a, r)[j] == a[j - r];
      assert rhs == b[j - r - 1];
    }
  }

  /** Element j of a rotation. */
  lemma RotateRightAt(w: seq<nat>, r: nat, j: nat)
    requires r <= |w| && j < |w|
    ensures RotateRight(w, r)[j] == if j < r then w[|w| - r + j] else w[j - r]
  {
  }

  /** What the buffer holds after i readings: the readings so far followed
      by the initial zeros while it is filling, then the last n readings
      rotated right by i % n. */
  ghost predicate BufferHolds(buf: seq<nat>, input: seq<nat>, i: nat, n: nat)
    requires n >= 1 && i <= |input|
  {
    if i < n then buf == input[..i] + Zeros(n - i)
    else buf == RotateRight(input[i - n..i], Slot(i, n))
  }

  /** Writing reading i to slot i % n moves the buffer from i to i + 1 readings. */
  lemma BufferStep(buf: seq<nat>, input: seq<nat>, i: nat, n: nat)
    requires n >= 1 && i < |input| && BufferHolds(buf, input, i, n)
    ensures Slot(i, n) < |buf| && BufferHolds(buf[Slot(i, n) := input[i]], input, i + 1, n)
  {
    if i < n {
      SlotBelow(i, n);
      FillStep(input, i, n);
      if i + 1 == n {
        SlotBelow(i, n);
        assert input[..n] + Zeros(0) == RotateRight(input[0..n], 0);
      }
    } else {
      RotateStep(input, i, n);
    }
  }

  /** Window k as `windowed` yields it: readings k .. k + n - 1, rotated
      right by the slot that reading k went to. */
  function Window(input: seq<nat>, k: nat, n: nat): (w: seq<nat>)
    requires n >= 1 && k + n <= |input|
    ensures |w| == n
  {
    RotateRight(input[k..k + n], Slot(k, n))
  }

  /** One pass of the loop body: writing reading i into its slot advances the
      buffer by one reading, and once n readings are in, the buffer is the
      window that starts n - 1 readings back. */
  lemma LoopStep(before: seq<nat>, after: seq<nat>, input: seq<nat>, i: nat, n: nat)
    requires n >= 1 && i < |input| && BufferHolds(before, input, i, n)
    requires |after| == |before| && Slot(i, n) < |before|
    requires after == before[Slot(i, n) := input[i]]
    ensures BufferHolds(after, input, i + 1, n)
    ensures i + 1 >= n ==> after == Window(input, i + 1 - n, n)
  {
    BufferStep(before, input, i, n);
    FullAfterStep(after, input, i, n);
  }

  /** Once n readings are in, the buffer after reading i is the window that
      starts n - 1 readings back. */
  lemma FullAfterStep(after: seq<nat>, input: seq<nat>, i: nat, n: nat)
    requires n >= 1 && i < |input| && BufferHolds(after, input, i + 1, n)
    ensures i + 1 >= n ==> after == Window(input, i + 1 - n, n)
  {
    if i + 1 >= n {
      var k: nat := i + 1 - n;
      assert k + n == i + 1;
      FullBufferIsWindow(after, input, k, n);
    }
  }

  /** A full buffer after k + n readings is window k. */
  lemma FullBufferIsWindow(buf: seq<nat>, input: seq<nat>, k: nat, n: nat)
    requires n >= 1 && k + n <= |input| && BufferHolds(buf, input, k + n, n)
    ensures buf == Window(input, k, n)
  {
    assert buf == RotateRight(input[k..k + n], Slot(k + n, n));
    SlotPeriodic(k, n);
  }

  /** `windows` are the first |windows| windows of `input`. */
  ghost predicate WindowsSoFar(windows: seq<seq<nat>>, input: seq<nat>, n: nat)
    requires n >= 1
  {
    forall k :: 0 <= k < |windows| ==> k + n <= |input| && windows[k] == Window(input, k, n)
  }

  lemma AppendWindow(windows: seq<seq<nat>>, input: seq<nat>, n: nat)
    requires n >= 1 && WindowsSoFar(windows, input, n) && |windows| + n <= |input|
    ensures WindowsSoFar(windows + [Window(input, |windows|, n)], input, n)
  {
  }

  /** `windowed::<N>`: reading i overwrites slot i % N of a buffer of N
      zeros, and from the N-th reading on a copy of the buffer is yielded
      (the first N - 1 copies are skipped). The k-th window is therefore
      readings k .. k + N - 1 rotated right by k % N places: it holds the
      same readings, and none of the initial zeros is ever yielded. */
  method Windowed(input: seq<nat>, n: nat) returns (windows: seq<seq<nat>>)
    requires n >= 1
    ensures |windows| == if |input| < n then 0 else |input| - n + 1
    ensures WindowsSoFar(windows, input, n)
  {
    var buf := new nat[n](_ => 0);
    windows := [];
    var i := 0;
    assert buf[..] == input[..0] + Zeros(n);
    while i < |input|
      invariant 0 <= i <= |input|
      invariant |windows| == if i < n then 0 else i - n + 1
      invariant BufferHolds(buf[..], input, i, n)
      invariant WindowsSoFar(windows, input, n)
    {
      ghost var before := buf[..];
      buf[SlotIndex(i, n)] := input[i];
      ghost var after := buf[..];
      LoopStep(before, after, input, i, n);
      if i >= n - 1 {
        AppendWindow(windows, input, n);
        windows := windows + [buf[..]];
      }
      i := i + 1;
      assert BufferHolds(after, input, i, n);
    }
  }

  /** The sums of the windows of n consecutive readings. */
  function WindowSums(s: seq<nat>, n: nat): (r: seq<nat>)
    requires n >= 1
    ensures |r| == if |s| < n then 0 else |s| - n + 1
  {
    if |s| < n then []
    else seq<nat>(|s| - n + 1, k requires 0 <= k <= |s| - n => Sum(s[k..k + n]))
  }

  /** `solve_inner`: the window sums of `windowed::<3>`, counted with the
      part-one fold. */
  method SolveInner(input: seq<nat>) returns (count: nat)
    ensures count == Day01.Increases(WindowSums(input, 3))
    ensures |input| < 4 ==> count == 0
  {
    var windows := Windowed(input, 3);
    var sums := seq(|windows|, k requires 0 <= k < |windows| => Sum(windows[k]));
    assert sums == WindowSums(input, 3) by {
      forall k | 0 <= k < |sums|
        ensures sums[k] == Sum(input[k..k + 3])
      {
        assert windows[k] == Window(input, k, 3);
        RotatedSum(input[k..k + 3], Slot(k, 3));
      }
    }
    count := Day01.SolveInner(sums);
    Day01.SolveInnerCountsIncreases(sums);
  }

  /** Two consecutive three-reading windows share two readings, so the later
      sum is larger exactly when the reading it gains exceeds the one it loses. */
  lemma WindowGrowsIff(s: seq<nat>, k: nat)
    requires k + 4 <= |s|
    ensures WindowSums(s, 3)[k] < WindowSums(s, 3)[k + 1] <==> s[k] < s[k + 3]
  {
    var w := WindowSums(s, 3);
    assert w[k] == s[k] + s[k + 1] + s[k + 2] by {
      SumThree(s[k..k + 3]);
    }
    assert w[k + 1] == s[k + 1] + s[k + 2] + s[k + 3] by {
      SumThree(s[k + 1..k + 4]);
    }
  }

  lemma SumThree(w: seq<nat>)
    requires |w| == 3
    ensures Sum(w) == w[0] + w[1] + w[2]
  {
    assert Sum(w[2..]) == w[2] by {
      assert w[2..][1..] == [];
    }
    assert w[1..][1..] == w[2..];
  }

  /** Reference count for part two: positions k with s[k] < s[k + 3]. */
  function GapIncreases(s: seq<nat>): nat
    decreases |s|
  {
    if |s| < 4 then 0
    else (if s[0] < s[3] then 1 else 0) + GapIncreases(s[1..])
  }

  /** Counting increases of three-reading window sums is counting readings
      that exceed the reading three places earlier. */
  lemma {:induction false} WindowIncreasesAreGaps(s: seq<nat>)
    ensures Day01.Increases(WindowSums(s, 3)) == GapIncreases(s)
    decreases |s|
  {
    if |s| >= 4 {
      WindowIncreasesAreGaps(s[1..]);
      WindowSumsCons(s);
      var w := WindowSums(s, 3);
      Day01.IncreasesCons(w[0], WindowSums(s[1..], 3));
      WindowGrowsIff(s, 0);
    }
  }

  /** Dropping the first reading drops the first window sum. */
  lemma WindowSumsCons(s: seq<nat>)
    requires |s| >= 4
    ensures WindowSums(s, 3) == [WindowSums(s, 3)[0]] + WindowSums(s[1..], 3)
  {
    var t := s[1..];
    var w, wt := WindowSums(s, 3), WindowSums(t, 3);
    forall k | 0 <= k < |wt|
      ensures w[k + 1] == wt[k]
    {
      assert s[k + 1..k + 4] == t[k..k + 3];
    }
  }

  const Example: seq<nat> := [199, 200, 208, 210, 200, 207, 240, 269, 260, 263]

  lemma ExampleCount()
    ensures Day01.Increases(WindowSums(Example, 3)) == 5
  {
    WindowIncreasesAreGaps(Example);
  }
}
