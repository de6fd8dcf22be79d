/** Day 1, part 1: count how often a depth reading is strictly larger than
    the reading before it. The source computes this as one left fold over a
    (count, previous reading) pair. */
module Day01 {
  import opened Common

  /** One step of the fold: the first reading only seeds `prev`; every later
      reading adds one to the count when it exceeds its predecessor. */
  function Step(cnt: nat, prev: Option<nat>, x: nat): (nat, Option<nat>) {
    match prev
    case Some(p) => (if p < x then cnt + 1 else cnt, Some(x))
    case None => (cnt, Some(x))
  }

  /** The fold over the remaining readings, starting from `(cnt, prev)`. */
  function Fold(s: seq<nat>, cnt: nat, prev: Option<nat>): (nat, Option<nat>)
    decreases |s|
  {
    if s == [] then (cnt, prev)
    else
      var (cnt', prev') := Step(cnt, prev, s[0]);
      Fold(s[1..], cnt', prev')
  }

  /** `solve_inner`: the count component of the fold from `(0, None)`. */
  function SolveInner(s: seq<nat>): nat {
    Fold(s, 0, None).0
  }

  /** Reference definition: the number of positions i >= 1 with
      s[i - 1] < s[i], built up by appending one reading at a time. */
  function Increases(s: seq<nat>): nat
    decreases |s|
  {
    if |s| < 2 then 0
    else Increases(s[..|s| - 1]) + (if s[|s| - 2] < s[|s| - 1] then 1 else 0)
  }

  /** Prepending a reading adds one exactly when it is below the old first one. */
  lemma {:induction false} IncreasesCons(p: nat, s: seq<nat>)
    requires s != []
    ensures Increases([p] + s) == Increases(s) + (if p < s[0] then 1 else 0)
    decreases |s|
  {
    var t := [p] + s;
    if |s| >= 2 {
      assert t[..|t| - 1] == [p] + s[..|s| - 1];
      IncreasesCons(p, s[..|s| - 1]);
    } else {
      assert t == [p, s[0]];
    }
  }

  /** The fold computes the reference count: after the fold has seen a prefix
      ending in `p` with count `cnt`, it finishes with `cnt` plus the
      increases of `[p] + rest`. */
  lemma {:induction false} FoldCounts(s: seq<nat>, cnt: nat, prev: Option<nat>)
    ensures prev.None? ==> Fold(s, cnt, prev).0 == cnt + Increases(s)
    ensures prev.Some? ==> Fold(s, cnt, prev).0 == cnt + Increases([prev.value] + s)
    decreases |s|
  {
    if s == [] {
      match prev
      case None =>
      case Some(p) => assert [p] + s == [p];
    } else {
      var (cnt', prev') := Step(cnt, prev, s[0]);
      FoldCounts(s[1..], cnt', prev');
      assert [s[0]] + s[1..] == s;
      if s[1..] != [] {
        IncreasesCons(s[0], s[1..]);
      }
      match prev
      case None =>
      case Some(p) => IncreasesCons(p, s);
    }
  }

  /** `solve_inner` counts exactly the strict adjacent increases. */
  lemma SolveInnerCountsIncreases(s: seq<nat>)
    ensures SolveInner(s) == Increases(s)
  {
    FoldCounts(s, 0, None);
  }

  /** Empty and one-reading inputs count nothing. */
  lemma ShortInputCountsNothing(s: seq<nat>)
    requires |s| <= 1
    ensures SolveInner(s) == 0
  {
    SolveInnerCountsIncreases(s);
  }

  /** Appending x adds one exactly when the last reading is below x. */
  lemma SolveInnerAppend(s: seq<nat>, x: nat)
    requires s != []
    ensures SolveInner(s + [x]) == SolveInner(s) + (if s[|s| - 1] < x then 1 else 0)
  {
    SolveInnerCountsIncreases(s);
    SolveInnerCountsIncreases(s + [x]);
    assert (s + [x])[..|s|] == s;
  }

  /** At most one increase per adjacent pair. */
  lemma {:induction false} IncreasesBound(s: seq<nat>)
    ensures Increases(s) <= if |s| == 0 then 0 else |s| - 1
    decreases |s|
  {
    if |s| >= 2 {
      IncreasesBound(s[..|s| - 1]);
    }
  }

  /** Only strict increases count: a sequence that never rises (equal
      neighbours included) counts nothing, and one that always rises counts
      every pair. */
  lemma {:induction false} IncreasesStrict(s: seq<nat>)
    ensures (forall i :: 0 < i < |s| ==> s[i] <= s[i - 1]) ==> Increases(s) == 0
    ensures |s| >= 1 && (forall i :: 0 < i < |s| ==> s[i - 1] < s[i]) ==> Increases(s) == |s| - 1
    decreases |s|
  {
    if |s| >= 2 {
      var t := s[..|s| - 1];
      IncreasesStrict(t);
      assert forall i :: 0 <= i < |t| ==> t[i] == s[i];
    }
  }

  /** The depth readings of the puzzle's example. */
  const Example: seq<nat> := [199, 200, 208, 210, 200, 207, 240, 269, 260, 263]

  lemma ExampleCount()
    ensures SolveInner(Example) == 7
  {
    assert SolveInner(Example) == Fold(Example[1..], 0, Some(199)).0;

  }
}
