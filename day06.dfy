/** Day 6: lanternfish. A fish with timer 0 resets to 6 and spawns a new
    fish with timer 8; any other fish counts down. The number of fish a
    single fish with timer `t` has become after `d` days follows a
    recurrence, computed with a memo shared by all the initial fish. */
module Day06 {
  import opened Common

  /** The key of the memo: a timer and a number of days. */
  type Key = (nat, nat)

  /** The recurrence `the_number_of_fish_memo` computes: one fish when no
      days are left; a fish at 0 becomes a fish at 6 and one at 8 a day
      later; any other fish is one day nearer to 0. */
  function Count(t: nat, d: nat): nat
    decreases d
  {
    if d == 0 then 1
    else if t == 0 then Count(6, d - 1) + Count(8, d - 1)
    else Count(t - 1, d - 1)
  }

  /* ---------------------------------------------------------------------
     An independent reference: the school simulated day by day
     --------------------------------------------------------------------- */

  /** One fish a day later: 0 becomes 6 and a new 8, anything else counts
      down. */
  function Age(f: nat): seq<nat> {
    if f == 0 then [6, 8] else [f - 1]
  }

  /** Every fish of the school a day later. */
  function Step(fs: seq<nat>): seq<nat> {
    if fs == [] then [] else Age(fs[0]) + Step(fs[1..])
  }

  /** The school after `d` days. */
  function Simulate(fs: seq<nat>, d: nat): seq<nat>
    decreases d
  {
    if d == 0 then fs else Simulate(Step(fs), d - 1)
  }

  lemma {:induction false} StepAppend(a: seq<nat>, b: seq<nat>)
    ensures Step(a + b) == Step(a) + Step(b)
  {
    if a == [] {
      assert a + b == b;
    } else {
      assert (a + b)[1..] == a[1..] + b;
      StepAppend(a[1..], b);
      assert Age(a[0]) + (Step(a[1..]) + Step(b)) == (Age(a[0]) + Step(a[1..])) + Step(b);
    }
  }

  lemma {:induction false} SimulateEmpty(d: nat)
    ensures Simulate([], d) == []
    decreases d
  {
    if d > 0 {
      SimulateEmpty(d - 1);
    }
  }

  /** Two schools side by side grow independently. */
  lemma {:induction false} SimulateAppend(a: seq<nat>, b: seq<nat>, d: nat)
    ensures Simulate(a + b, d) == Simulate(a, d) + Simulate(b, d)
    decreases d
  {
    if d > 0 {
      StepAppend(a, b);
      SimulateAppend(Step(a), Step(b), d - 1);
    }
  }

  /** The recurrence counts exactly the fish one fish becomes when the
      school is simulated day by day. */
  lemma {:induction false} CountIsPopulation(t: nat, d: nat)
    ensures Count(t, d) == |Simulate([t], d)|
    decreases d
  {
    if d > 0 {
      assert Step([t]) == Age(t) + Step([]) == Age(t);
      if t == 0 {
        assert Age(t) == [6] + [8];
        SimulateAppend([6], [8], d - 1);
        CountIsPopulation(6, d - 1);
        CountIsPopulation(8, d - 1);
      } else {
        CountIsPopulation(t - 1, d - 1);
      }
    }
  }

  /** A fish whose timer has not yet run out within the days is still
      just one fish. */
  lemma {:induction false} NotYetSpawned(t: nat, d: nat)
    requires d <= t
    ensures Count(t, d) == 1
    decreases d
  {
    if d > 0 {
      NotYetSpawned(t - 1, d - 1);
    }
  }

  /** A fish with timer `t` is, `t` days later, a fish with timer 0. */
  lemma {:induction false} CountDown(t: nat, d: nat)
    requires t <= d
    ensures Count(t, d) == Count(0, d - t)
    decreases t
  {
    if t > 0 {
      CountDown(t - 1, d - 1);
    }
  }

  /** A fish at 0 spawns again every 7 days and its child first after 9. */
  lemma Period(d: nat)
    requires d >= 9
    ensures Count(0, d) == Count(0, d - 7) + Count(0, d - 9)
  {
    CountDown(6, d - 1);
    CountDown(8, d - 1);
  }

  /** `Count(t, d)` summed over the school. */
  function Total(fish: seq<nat>, days: nat): nat {
    if fish == [] then 0 else Total(fish[..|fish| - 1], days) + Count(fish[|fish| - 1], days)
  }

  /** The total is the size of the simulated school. */
  lemma {:induction false} TotalIsPopulation(fish: seq<nat>, days: nat)
    ensures Total(fish, days) == |Simulate(fish, days)|
  {
    if fish == [] {
      SimulateEmpty(days);
    } else {
      var front, last := fish[..|fish| - 1], fish[|fish| - 1];
      assert fish == front + [last];
      TotalIsPopulation(front, days);
      SimulateAppend(front, [last], days);
      CountIsPopulation(last, days);
    }
  }

  /* ---------------------------------------------------------------------
     The memo, as written
     --------------------------------------------------------------------- */

  /** What the memo holds at a key once `the_number_of_fish_memo` has
      stored it: the count, except that at a timer of 0 with days left it
      holds only the second summand, because the insert of the second
      summand replaces the insert of the first. */
  function Stored(k: Key): nat {
    if k.0 == 0 && k.1 > 0 then Count(8, k.1 - 1) else Count(k.0, k.1)
  }

  /** The memo entries up to `bound` days hold what was stored, and below
      it, an entry at a timer of 0 comes with the entry one timer and one
      day higher, which looked it up. */
  predicate MemoOk(memo: map<Key, nat>, bound: nat) {
    && (forall k :: k in memo && k.1 <= bound ==> memo[k] == Stored(k))
    && (forall x: nat :: 0 < x < bound && (0, x) in memo ==> (1, x + 1) in memo)
  }

  /** `memo'` keeps every entry of `memo`, and each entry it adds holds
      what was stored, at most `d` days, and at `d` days only at `(t, d)`. */
  predicate Grown(memo: map<Key, nat>, memo': map<Key, nat>, t: nat, d: nat) {
    && (forall k :: k in memo ==> k in memo' && memo'[k] == memo[k])
    && (forall k :: k in memo' && k !in memo ==> memo'[k] == Stored(k) && (k.1 < d || k == (t, d)))
  }

  /** `the_number_of_fish_memo`: a value already in the memo is returned
      as it is; otherwise the count is computed from the counts one day
      earlier and stored. A fresh lookup gives the count; a lookup of an
      entry at a timer of 0 with days left gives only its second summand. */
  method Memo(t: nat, d: nat, memo: map<Key, nat>) returns (ans: nat, memo': map<Key, nat>)
    requires MemoOk(memo, d)
    ensures ans == if (t, d) in memo then Stored((t, d)) else Count(t, d)
    ensures (t, d) in memo' && MemoOk(memo', d) && Grown(memo, memo', t, d)
    decreases d, 1
  {
    if (t, d) in memo {
      return memo[(t, d)], memo;
    }
    if d == 0 {
      return 1, memo[(t, d) := 1];
    }
    if t == 0 {
      ans, memo' := Spawn(d, memo);
    } else {
      ans, memo' := CountDownOne(t, d, memo);
    }
  }

  /** The branch of `the_number_of_fish_memo` for a fish at 0: the count
      at 6 is stored, then replaced by the count at 8, and their sum is
      returned. */
  method Spawn(d: nat, memo: map<Key, nat>) returns (ans: nat, memo': map<Key, nat>)
    requires d > 0 && (0, d) !in memo && MemoOk(memo, d)
    ensures ans == Count(0, d)
    ensures (0, d) in memo' && MemoOk(memo', d) && Grown(memo, memo', 0, d)
    decreases d, 0
  {
    var ans1, m1 := Memo(6, d - 1, memo);
    assert ans1 == Count(6, d - 1) by {
      StoredElsewhere(6, d - 1);
    }
    var first := m1[(0, d) := ans1];
    FirstStored(d, m1, ans1);
    var ans2, m2 := Memo(8, d - 1, first);
    assert ans2 == Count(8, d - 1) by {
      StoredElsewhere(8, d - 1);
    }
    memo' := m2[(0, d) := ans2];
    SpawnDone(d, memo, m1, ans1, m2);
    return ans1 + ans2, memo';
  }

  /** After both lookups, the memo with the second summand stored last is
      fit and grown from the one the spawn started with. */
  lemma SpawnDone(d: nat, memo: map<Key, nat>, m1: map<Key, nat>, v: nat, m2: map<Key, nat>)
    requires d > 0 && (0, d) !in memo && MemoOk(memo, d) && MemoOk(m2, d - 1)
    requires Grown(memo, m1, 6, d - 1) && Grown(m1[(0, d) := v], m2, 8, d - 1)
    ensures MemoOk(m2[(0, d) := Count(8, d - 1)], d) && Grown(memo, m2[(0, d) := Count(8, d - 1)], 0, d)
  {
    SpawnGrown(d, memo, m1, v, m2);
    SpawnRight(d, memo, m1, v, m2);
    SpawnLinked(d, memo, m1, v, m2);
  }

  /** Away from a timer of 0, what is stored is the count. */
  lemma StoredElsewhere(t: nat, d: nat)
    requires t != 0
    ensures Stored((t, d)) == Count(t, d)
  {
  }

  /** The memo with the first summand stored at `(0, d)` is fit for the
      second branch, whose days are fewer. */
  lemma FirstStored(d: nat, m1: map<Key, nat>, v: nat)
    requires d > 0 && MemoOk(m1, d - 1)
    ensures MemoOk(m1[(0, d) := v], d - 1)
  {
  }

  /** Storing the second summand last leaves a memo grown from the one the
      spawn started with. */
  lemma SpawnGrown(d: nat, memo: map<Key, nat>, m1: map<Key, nat>, v: nat, m2: map<Key, nat>)
    requires d > 0 && (0, d) !in memo
    requires Grown(memo, m1, 6, d - 1) && Grown(m1[(0, d) := v], m2, 8, d - 1)
    ensures Grown(memo, m2[(0, d) := Count(8, d - 1)], 0, d)
  {
  }

  /** ... whose entries up to `d` days hold what was stored ... */
  lemma SpawnRight(d: nat, memo: map<Key, nat>, m1: map<Key, nat>, v: nat, m2: map<Key, nat>)
    requires d > 0 && (0, d) !in memo && MemoOk(memo, d) && MemoOk(m2, d - 1)
    requires Grown(memo, m1, 6, d - 1) && Grown(m1[(0, d) := v], m2, 8, d - 1)
    ensures forall k :: k in m2[(0, d) := Count(8, d - 1)] && k.1 <= d ==> m2[(0, d) := Count(8, d - 1)][k] == Stored(k)
  {
    var m := m2[(0, d) := Count(8, d - 1)];
    forall k | k in m && k.1 <= d
      ensures m[k] == Stored(k)
    {
      if k != (0, d) && k.1 == d {
        assert k in m1[(0, d) := v];
        assert k in memo;
      }
    }
  }

  /** ... and whose entries at a timer of 0 below `d` days come with the
      entry that looked them up. */
  lemma SpawnLinked(d: nat, memo: map<Key, nat>, m1: map<Key, nat>, v: nat, m2: map<Key, nat>)
    requires d > 0 && (0, d) !in memo && MemoOk(memo, d) && MemoOk(m2, d - 1)
    requires Grown(memo, m1, 6, d - 1) && Grown(m1[(0, d) := v], m2, 8, d - 1)
    ensures forall x: nat :: 0 < x < d && (0, x) in m2[(0, d) := Count(8, d - 1)] ==> (1, x + 1) in m2[(0, d) := Count(8, d - 1)]
  {
    var m := m2[(0, d) := Count(8, d - 1)];
    forall x: nat | 0 < x < d && (0, x) in m
      ensures (1, x + 1) in m
    {
      if x == d - 1 {
        assert (0, x) in m1[(0, d) := v];
        assert (0, x) in memo;
      }
    }
  }

  /** The branch of `the_number_of_fish_memo` for any other fish: the
      count one timer and one day lower, stored. */
  method CountDownOne(t: nat, d: nat, memo: map<Key, nat>) returns (ans: nat, memo': map<Key, nat>)
    requires t > 0 && d > 0 && (t, d) !in memo && MemoOk(memo, d)
    ensures ans == Count(t, d)
    ensures (t, d) in memo' && MemoOk(memo', d) && Grown(memo, memo', t, d)
    decreases d, 0
  {
    var a, m := Memo(t - 1, d - 1, memo);
    return a, m[(t, d) := a];
  }

  /** `the_number_of_fish`: with a fresh memo the count is right. */
  method TheNumberOfFish(t: nat, d: nat) returns (ans: nat)
    ensures ans == Count(t, d)
  {
    var m;
    ans, m := Memo(t, d, map[]);
  }

  /** What `fish_num` adds up: each fish's count, except that a fish at 0
      after an earlier fish at 0 finds the memo entry the first one left
      and adds only its second summand. */
  function TotalAsWritten(fish: seq<nat>, days: nat): nat {
    if fish == [] then 0
    else
      var front, f := fish[..|fish| - 1], fish[|fish| - 1];
      TotalAsWritten(front, days) + if f in front then Stored((f, days)) else Count(f, days)
  }

  /** `Simulator::fish_num`: one memo for all the fish, adding up what each
      call returns. */
  method FishNum(fish: seq<nat>, days: nat) returns (total: nat)
    ensures total == TotalAsWritten(fish, days)
  {
    var memo: map<Key, nat> := map[];
    total := 0;
    var i := 0;
    while i < |fish|
      invariant 0 <= i <= |fish|
      invariant MemoOk(memo, days)
      invariant forall t :: (t, days) in memo <==> t in fish[..i]
      invariant total == TotalAsWritten(fish[..i], days)
    {
      var a;
      a, memo := Memo(fish[i], days, memo);
      assert fish[..i + 1][..i] == fish[..i];
      assert fish[..i + 1] == fish[..i] + [fish[i]];
      total := total + a;
      i := i + 1;
    }
    assert fish[..i] == fish;
  }

  /** How many fish of the school have timer 0. */
  function Zeros(fish: seq<nat>): nat {
    multiset(fish)[0]
  }

  /** `fish_num` is short by one first summand for every fish at 0 after
      the first: the total as written plus that shortfall is the true
      total. */
  lemma {:induction false} Shortfall(fish: seq<nat>, days: nat)
    requires days > 0
    ensures TotalAsWritten(fish, days) + Missed(fish) * Count(6, days - 1) == Total(fish, days)
  {
    if fish != [] {
      Shortfall(fish[..|fish| - 1], days);
      ShortfallStep(fish, days);
    }
  }

  /** How many fish at 0 `fish_num` undercounts: all but the first. */
  function Missed(fish: seq<nat>): nat {
    if Zeros(fish) == 0 then 0 else Zeros(fish) - 1
  }

  /** One more fish keeps the shortfall equation. */
  lemma ShortfallStep(fish: seq<nat>, days: nat)
    requires days > 0 && fish != []
    requires TotalAsWritten(fish[..|fish| - 1], days) + Missed(fish[..|fish| - 1]) * Count(6, days - 1)
             == Total(fish[..|fish| - 1], days)
    ensures TotalAsWritten(fish, days) + Missed(fish) * Count(6, days - 1) == Total(fish, days)
  {
    var front, f := fish[..|fish| - 1], fish[|fish| - 1];
    ZerosSnoc(fish);
    var c, z := Count(6, days - 1), Zeros(front);
    if f == 0 {
      assert Count(0, days) == c + Stored((0, days));
      if z > 0 {
        PeelOne(z, c);
      }
    } else {
      assert Stored((f, days)) == Count(f, days);
    }
  }

  lemma PeelOne(z: nat, c: nat)
    requires z > 0
    ensures z * c == (z - 1) * c + c
  {
  }

  /** The last fish adds one to the zeros when it is at 0, and a fish at 0
      is among the others exactly when they have a zero. */
  lemma ZerosSnoc(fish: seq<nat>)
    requires fish != []
    ensures Zeros(fish) == Zeros(fish[..|fish| - 1]) + if fish[|fish| - 1] == 0 then 1 else 0
    ensures 0 in fish[..|fish| - 1] <==> Zeros(fish[..|fish| - 1]) > 0
  {
    var front, f := fish[..|fish| - 1], fish[|fish| - 1];
    assert fish == front + [f];
    assert multiset(fish) == multiset(front) + multiset{f};
  }

  /** With no days, or at most one fish at 0, `fish_num` is right. */
  lemma AsWrittenRight(fish: seq<nat>, days: nat)
    requires days == 0 || Zeros(fish) <= 1
    ensures TotalAsWritten(fish, days) == Total(fish, days)
  {
    if days == 0 {
      NoDaysRight(fish);
    } else {
      Shortfall(fish, days);
    }
  }

  lemma {:induction false} NoDaysRight(fish: seq<nat>)
    ensures TotalAsWritten(fish, 0) == Total(fish, 0) == |fish|
  {
    if fish != [] {
      NoDaysRight(fish[..|fish| - 1]);
    }
  }

  /** Two fish at 0 and one day: `fish_num` gives 3, but there are 4. */
  lemma TwoZerosUndercount()
    ensures TotalAsWritten([0, 0], 1) == 3
    ensures Total([0, 0], 1) == 4
  {
    assert [0, 0][..1] == [0];
    assert [0][..0] == [];
  }

  /* ---------------------------------------------------------------------
     The memo, corrected
     --------------------------------------------------------------------- */

  /** The memo entries hold the counts. */
  predicate MemoRight(memo: map<Key, nat>) {
    forall k :: k in memo ==> memo[k] == Count(k.0, k.1)
  }

  /** `the_number_of_fish_memo` storing the sum of the two summands at a
      timer of 0, as evidently intended: it always returns the count and
      keeps every entry right. */
  method MemoFixed(t: nat, d: nat, memo: map<Key, nat>) returns (ans: nat, memo': map<Key, nat>)
    requires MemoRight(memo)
    ensures ans == Count(t, d)
    ensures (t, d) in memo' && MemoRight(memo')
    ensures forall k :: k in memo ==> k in memo' && memo'[k] == memo[k]
    decreases d
  {
    if (t, d) in memo {
      return memo[(t, d)], memo;
    }
    if d == 0 {
      return 1, memo[(t, d) := 1];
    }
    if t == 0 {
      var ans1, m1 := MemoFixed(6, d - 1, memo);
      var ans2, m2 := MemoFixed(8, d - 1, m1);
      return ans1 + ans2, m2[(t, d) := ans1 + ans2];
    }
    var a, m := MemoFixed(t - 1, d - 1, memo);
    return a, m[(t, d) := a];
  }

  /** `Simulator::fish_num` over the corrected memo: the true total. */
  method FishNumFixed(fish: seq<nat>, days: nat) returns (total: nat)
    ensures total == Total(fish, days)
  {
    var memo: map<Key, nat> := map[];
    total := 0;
    var i := 0;
    while i < |fish|
      invariant 0 <= i <= |fish|
      invariant MemoRight(memo)
      invariant total == Total(fish[..i], days)
    {
      var a;
      a, memo := MemoFixed(fish[i], days, memo);
      assert fish[..i + 1][..i] == fish[..i];
      total := total + a;
      i := i + 1;
    }
    assert fish[..i] == fish;
  }

  /* ---------------------------------------------------------------------
     Parsing
     --------------------------------------------------------------------- */

  /** One piece of the input, trimmed, as a `u64`. */
  function ParseTimer(piece: string): Result<nat> {
    match ParseUnsigned(Trim(piece), U64Max)
    case None => Err
    case Some(v) => Ok(v)
  }

  /** `Simulator::from_str`: every piece between the commas must be a
      timer. */
  function ParseFish(s: string): Result<seq<nat>> {
    ParseTimers(Split(s, ','))
  }

  /** Each piece read as a timer; one that is not fails the lot. */
  function ParseTimers(ps: seq<string>): Result<seq<nat>> {
    Collect(seq(|ps|, i requires 0 <= i < |ps| => ParseTimer(ps[i])))
  }

  /** The pieces are read exactly when every piece is a timer, and then
      fish `i` is piece `i` read. */
  lemma TimersIff(ps: seq<string>)
    ensures ParseTimers(ps).Ok? <==> forall i :: 0 <= i < |ps| ==> ParseTimer(ps[i]).Ok?
    ensures ParseTimers(ps).Ok? ==>
              && |ParseTimers(ps).value| == |ps|
              && forall i :: 0 <= i < |ps| ==> ParseTimer(ps[i]) == Ok(ParseTimers(ps).value[i])
  {
    var rs := seq(|ps|, i requires 0 <= i < |ps| => ParseTimer(ps[i]));
    assert ParseTimers(ps) == Collect(rs);
    forall i | 0 <= i < |ps|
      ensures rs[i] == ParseTimer(ps[i])
    {
    }
    CollectIff(rs);
  }

  /** An empty input has one empty piece, which is no timer. */
  lemma EmptyFails()
    ensures ParseFish("").Err?
  {
    assert Split("", ',') == [[]];
    ParseUnsignedRejects("", U64Max);
    TimersIff([[]]);
  }

  /** Each timer written out. */
  function Shows(fish: seq<nat>): seq<string> {
    seq(|fish|, i requires 0 <= i < |fish| => ShowNat(fish[i]))
  }

  /** A written timer reads back as itself and holds no comma. */
  lemma TimerText(n: nat)
    requires n <= U64Max
    ensures ParseTimer(ShowNat(n)) == Ok(n) && ',' !in ShowNat(n)
  {
    var s := ShowNat(n);
    ShowNatDigits(n);
    assert !IsWhitespace(s[0]) && !IsWhitespace(s[|s| - 1]);
    TrimPlain(s);
    ParseShowNat(n, U64Max);
    assert !IsDigit(',');
  }

  /** Timers written out with commas between them read back as
      themselves. */
  lemma FishRoundTrip(fish: seq<nat>)
    requires |fish| >= 1 && forall i :: 0 <= i < |fish| ==> fish[i] <= U64Max
    ensures ParseFish(Join(Shows(fish), ',')) == Ok(fish)
  {
    var ts := Shows(fish);
    forall i | 0 <= i < |ts|
      ensures ',' !in ts[i] && ParseTimer(ts[i]) == Ok(fish[i])
    {
      TimerText(fish[i]);
    }
    SplitJoin(ts, ',');
    var rs := seq(|ts|, i requires 0 <= i < |ts| => ParseTimer(ts[i]));
    CollectAll(rs, fish);
  }

  /* ---------------------------------------------------------------------
     The examples of the source's tests
     --------------------------------------------------------------------- */

  /** The single-fish cases: a fish at 3 after 0, 3, 4, 10, 11, 12 and 13
      days. */
  lemma CountExamples()
    ensures Count(3, 0) == 1 && Count(3, 3) == 1 && Count(3, 4) == 2 && Count(3, 10) == 2
    ensures Count(3, 11) == 3 && Count(3, 12) == 3 && Count(3, 13) == 4
  {
    NotYetSpawned(3, 3);
    CountDown(3, 4);
    CountDown(3, 10);
    CountDown(3, 11);
    CountDown(3, 12);
    CountDown(3, 13);
    NotYetSpawned(6, 0);
    NotYetSpawned(8, 0);
    assert Count(0, 1) == 2;
    NotYetSpawned(6, 6);
    NotYetSpawned(8, 6);
    NotYetSpawned(8, 7);
    CountDown(6, 7);
    Period(9);
    Period(10);
    assert Count(0, 2) == 2 by {
      NotYetSpawned(6, 1);
      NotYetSpawned(8, 1);
    }
    assert Count(0, 3) == 2 by {
      NotYetSpawned(6, 2);
      NotYetSpawned(8, 2);
    }
  }

  /** The example school 3,4,3,1,2 has 26 fish after 18 days. */
  lemma SchoolTotal()
    ensures Total([3, 4, 3, 1, 2], 18) == 26
  {
    ZeroCounts();
    assert Count(3, 18) == 5 by { CountDown(3, 18); }
    assert Count(4, 18) == 4 by { CountDown(4, 18); }
    assert Count(1, 18) == 7 by { CountDown(1, 18); }
    assert Count(2, 18) == 5 by { CountDown(2, 18); }
    TotalFive(3, 4, 3, 1, 2, 18);
  }

  /** `fish_num` agrees on the example school, as no fish starts at 0. */
  lemma SchoolExample()
    ensures TotalAsWritten([3, 4, 3, 1, 2], 18) == 26
  {
    var fish := [3, 4, 3, 1, 2];
    SchoolTotal();
    assert Zeros(fish) == 0;
    AsWrittenRight(fish, 18);
  }

  /** A fish at 0 after 14 to 17 days. */
  lemma ZeroCounts()
    ensures Count(0, 14) == 4 && Count(0, 15) == 5 && Count(0, 16) == 5 && Count(0, 17) == 7
  {
    assert Count(0, 0) == 1;
    forall n | 1 <= n <= 7
      ensures Count(0, n) == 2
    {
      NotYetSpawned(6, n - 1);
      NotYetSpawned(8, n - 1);
    }
    assert Count(0, 8) == 3 by {
      CountDown(6, 7);
      NotYetSpawned(8, 7);
    }
    Period(9);
    Period(10);
    Period(14);
    Period(15);
    Period(16);
    Period(17);
  }

  /** One more fish adds its count. */
  lemma TotalSnoc(fish: seq<nat>, f: nat, days: nat)
    ensures Total(fish + [f], days) == Total(fish, days) + Count(f, days)
  {
    assert (fish + [f])[..|fish|] == fish;
  }

  /** The total of a school of five. */
  lemma TotalFive(a: nat, b: nat, c: nat, d: nat, e: nat, days: nat)
    ensures Total([a, b, c, d, e], days) == Count(a, days) + Count(b, days) + Count(c, days) + Count(d, days) + Count(e, days)
  {
    TotalSnoc([], a, days);
    assert [] + [a] == [a];
    TotalSnoc([a], b, days);
    assert [a] + [b] == [a, b];
    TotalSnoc([a, b], c, days);
    assert [a, b] + [c] == [a, b, c];
    TotalSnoc([a, b, c], d, days);
    assert [a, b, c] + [d] == [a, b, c, d];
    TotalSnoc([a, b, c, d], e, days);
    assert [a, b, c, d] + [e] == [a, b, c, d, e];
  }
}
