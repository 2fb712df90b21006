/**
 The timed forced drop of ConnectionManager: `dropConnectionsRound` spreads the
 drops needed to reach a target count over rounds, recomputing its quota from
 the connections and the time that are left. Between two rounds connections may
 close or be added, and a round may overrun its interval. Milliseconds are
 integers and fractions are reals.
 */
module DropSchedule {
  import opened Arithmetic
  import opened Octets

  /** The conversion of a 64-bit count to a C++ `int`. */
  function ToInt32(x: nat): (r: int) {
    var low := x % 0x1_0000_0000;
    if low > INT_MAX then low - 0x1_0000_0000 else low
  }

  function CeilDiv(a: nat, b: nat): (r: nat)
    requires b > 0
  {
    (a + b - 1) / b
  }

  /** `roundsRemaining`, computed in 64 bits and stored in an `int`. */
  function RoundsRemaining(time: nat, interval: nat): (r: int)
    requires interval > 0
  {
    ToInt32(CeilDiv(time, interval))
  }

  /** The stored value is the rounded-up quotient exactly if that fits an `int`. */
  lemma RoundsRemainingIsCeilIff(time: nat, interval: nat)
    requires interval > 0
    ensures RoundsRemaining(time, interval) == CeilDiv(time, interval) <==> CeilDiv(time, interval) <= INT_MAX
  {
  }

  /** It is zero, and is then divided by, exactly if the quotient is a multiple of 2^32. */
  lemma RoundsVanishIff(time: nat, interval: nat)
    requires interval > 0
    ensures RoundsRemaining(time, interval) == 0 <==> CeilDiv(time, interval) % UINT32 == 0
  {
  }

  /** The size of a list of connections. */
  type Count = n: int | 0 <= n < 0x8000_0000_0000_0000

  /** The rounds left fit the `int` the code keeps them in. */
  predicate RoundsFit(time: int, interval: nat)
    requires interval > 0
  {
    time > 0 ==> CeilDiv(time, interval) <= INT_MAX
  }

  /** The quota of a round can be computed at all. */
  predicate CanDivide(time: int, interval: nat)
    requires interval > 0
  {
    time > 0 ==> RoundsRemaining(time, interval) != 0
  }

  /** The rounded-up share in the unsigned 64-bit arithmetic that a size_t and an `int` are added and divided in. */
  function ShareOf(d: Count, rounds: int): (q: nat)
    requires -0x8000_0000 <= rounds <= INT_MAX && rounds != 0
  {
    Quotient(ToSize(d + rounds - 1), ToSize(rounds))
  }

  /** The conversion to a size_t. */
  function ToSize(x: int): (r: nat)
    ensures 0 <= x < UINT64 ==> r == x
    ensures -UINT64 <= x < 0 ==> r == x + UINT64
  {
    x % UINT64
  }

  function Quotient(a: nat, b: nat): (q: nat)
    requires b > 0
  {
    a / b
  }

  /** How many connections one round drops. */
  function Quota(count: Count, target: nat, time: int, interval: nat): (q: nat)
    requires interval > 0 && CanDivide(time, interval)
  {
    if count <= target then 0
    else if time <= 0 then count - target
    else ShareOf(count - target, RoundsRemaining(time, interval))
  }

  // ---------------------------------------------------------------------------
  // Division facts
  // ---------------------------------------------------------------------------

  lemma CeilDivIs(a: nat, b: nat)
    requires b > 0
    ensures CeilDiv(a, b) == a / b + if a % b == 0 then 0 else 1
  {
    var q, r := a / b, a % b;
    assert a == q * b + r;
    if r == 0 {
      DivUnique(a + b - 1, b, q, b - 1);
    } else {
      assert (q + 1) * b == q * b + b;
      DivUnique(a + b - 1, b, q + 1, r - 1);
    }
  }

  lemma CeilDivBounds(a: nat, b: nat)
    requires b > 0 && a > 0
    ensures 1 <= CeilDiv(a, b) <= a
    ensures a <= b ==> CeilDiv(a, b) == 1
  {
    if a <= b {
      DivUnique(a + b - 1, b, 1, a - 1);
    } else {
      DivMonotone(b, a + b - 1, b);
      DivUnique(b, b, 1, 0);
      CeilDivIs(a, b);
      MulLe(1, b, a / b);
    }
  }

  /** Time that has lost at least one interval has at least one round less. */
  lemma LessTimeLessRounds(time: nat, less: nat, interval: nat)
    requires interval > 0 && less + interval <= time
    ensures CeilDiv(less, interval) + 1 <= CeilDiv(time, interval)
    ensures less + interval == time ==> CeilDiv(less, interval) + 1 == CeilDiv(time, interval)
  {
    var a, b := less + interval - 1, time + interval - 1;
    var q, r := a / interval, a % interval;
    assert a == q * interval + r;
    assert (q + 1) * interval == q * interval + interval;
    DivUnique(a + interval, interval, q + 1, r);
    DivMonotone(a + interval, b, interval);
  }

  /** Taking the rounded-up share leaves the rest to be split the same way over one round less. */
  lemma ShareOfRest(d: nat, rounds: nat)
    requires rounds > 1
    ensures CeilDiv(d, rounds) <= d
    ensures var rest := d - CeilDiv(d, rounds);
            && rest / (rounds - 1) == d / rounds
            && rest % (rounds - 1) == if d % rounds == 0 then 0 else d % rounds - 1
  {
    CeilDivIs(d, rounds);
    if d > 0 { CeilDivBounds(d, rounds); }
    var q, r := d / rounds, d % rounds;
    assert d == q * rounds + r;
    assert q * rounds == q * (rounds - 1) + q;
    DivUnique(d - CeilDiv(d, rounds), rounds - 1, q, if r == 0 then 0 else r - 1);
  }

  /** The k-th of `rounds` shares of d that differ by at most one, the larger ones first. */
  function EvenShare(d: nat, rounds: nat, k: nat): (n: nat)
    requires rounds > 0
  {
    d / rounds + if k < d % rounds then 1 else 0
  }

  /** The rounded-up share is the first of them; the others are the shares of the rest. */
  lemma EvenSharesUnfold(d: nat, rounds: nat, k: nat)
    requires rounds > 1
    ensures EvenShare(d, rounds, 0) == CeilDiv(d, rounds) <= d
    ensures k > 0 ==> EvenShare(d, rounds, k) == EvenShare(d - CeilDiv(d, rounds), rounds - 1, k - 1)
  {
    CeilDivIs(d, rounds);
    ShareOfRest(d, rounds);
  }

  // ---------------------------------------------------------------------------
  // Whole schedules
  // ---------------------------------------------------------------------------

  /** A truncated number of rounds that is negative makes the share zero, or one for few connections. */
  lemma ShareOfIs(d: Count, rounds: int)
    requires -0x8000_0000 <= rounds <= INT_MAX && rounds != 0 && d > 0
    ensures rounds > 0 ==> ShareOf(d, rounds) == CeilDiv(d, rounds)
    ensures rounds < 0 ==> ShareOf(d, rounds) == if d + rounds > 0 then 0 else 1
    ensures ShareOf(d, rounds) <= d
  {
    hide ToSize, Quotient;
    if rounds > 0 {
      QuotientIs(d + rounds - 1, rounds);
      CeilDivBounds(d, rounds);
    } else if d + rounds > 0 {
      QuotientOf(d + rounds - 1, rounds + UINT64, 0, d + rounds - 1);
    } else {
      QuotientOf(rounds + UINT64 + (d - 1), rounds + UINT64, 1, d - 1);
    }
  }

  lemma QuotientIs(a: nat, b: nat)
    requires b > 0
    ensures Quotient(a, b) == a / b
  {
  }

  lemma QuotientOf(a: nat, b: nat, q: nat, r: nat)
    requires b > 0 && r < b && a == q * b + r
    ensures Quotient(a, b) == q
  {
    DivUnique(a, b, q, r);
  }

  lemma QuotaBounds(count: Count, target: nat, time: int, interval: nat)
    requires interval > 0 && CanDivide(time, interval)
    ensures count <= target ==> Quota(count, target, time, interval) == 0
    ensures count > target ==> Quota(count, target, time, interval) <= count - target
    ensures count > target && RoundsFit(time, interval) ==> Quota(count, target, time, interval) >= 1
    ensures count > target && time <= interval ==> Quota(count, target, time, interval) == count - target
  {
    hide ShareOf, CeilDiv;
    if count > target && time > 0 {
      CeilDivBounds(time, interval);
      RoundsRemainingIsCeilIff(time, interval);
      ShareOfIs(count - target, RoundsRemaining(time, interval));
      if RoundsFit(time, interval) {
        CeilDivBounds(count - target, CeilDiv(time, interval));
        CeilDivIs(count - target, 1);
      }
    }
  }

  lemma QuotaIsAShare(count: Count, target: nat, time: nat, interval: nat)
    requires interval > 0 && RoundsFit(time, interval) && time > 0 && count > target
    ensures CeilDiv(time, interval) > 0 && CanDivide(time, interval)
    ensures Quota(count, target, time, interval) == CeilDiv(count - target, CeilDiv(time, interval))
  {
    hide ShareOf, CeilDiv;
    CeilDivBounds(time, interval);
    RoundsRemainingIsCeilIff(time, interval);
    ShareOfIs(count - target, CeilDiv(time, interval));
  }

  lemma FittingDivides(time: int, interval: nat)
    requires interval > 0 && RoundsFit(time, interval)
    ensures CanDivide(time, interval)
  {
    hide CeilDiv;
    if time > 0 {
      CeilDivBounds(time, interval);
      RoundsRemainingIsCeilIff(time, interval);
    }
  }

  /** One call of `dropConnectionsRound`: the count it found and the count it left. */
  datatype Round = Round(found: Count, left: nat)

  /** What the environment does around a round: how long it takes, and the count at the next one. */
  datatype Surroundings = Surroundings(spent: nat, nextCount: Count)

  /** The rounds that run, and whether one more ended in a division by zero. */
  datatype Schedule = Schedule(rounds: seq<Round>, crashed: bool)

  /** The rounds from the first call on; `envs(i)` surrounds the i-th. */
  function Rounds(count: Count, target: nat, time: int, interval: nat, i: nat, envs: nat -> Surroundings): (s: Schedule)
    requires interval > 0
    decreases if time > 0 then time else 0
  {
    if count > target && !CanDivide(time, interval) then Schedule([], true)
    else
      var left := LeftBy(count, target, time, interval);
      if left > target && time > 0 then
        var rest := TimeLeft(time, interval, envs(i).spent);
        var tail := Rounds(envs(i).nextCount, target, rest, interval, i + 1, envs);
        Schedule([Round(count, left)] + tail.rounds, tail.crashed)
      else Schedule([Round(count, left)], false)
  }

  /** The count a round leaves. */
  function LeftBy(count: Count, target: nat, time: int, interval: nat): (left: nat)
    requires interval > 0 && (count > target ==> CanDivide(time, interval))
  {
    if count <= target then count
    else
      QuotaBounds(count, target, time, interval);
      count - Quota(count, target, time, interval)
  }

  /** `timeRemaining` after a round that took `spent`. */
  function TimeLeft(time: int, interval: nat, spent: nat): (r: int)
    ensures r <= time - interval && r <= time - spent
    ensures r == time - interval || r == time - spent
  {
    time - (if spent > interval then spent else interval)
  }

  /** A round crashes exactly if there is something to drop and the rounds left are a positive multiple of 2^32. */
  lemma RoundCrashesIff(count: Count, target: nat, time: int, interval: nat, i: nat, envs: nat -> Surroundings)
    requires interval > 0
    ensures Rounds(count, target, time, interval, i, envs) == Schedule([], true) <==>
            count > target && time > 0 && CeilDiv(time, interval) % UINT32 == 0
  {
    hide LeftBy, TimeLeft, RoundsRemaining, CeilDiv;
    if time > 0 { RoundsVanishIff(time, interval); }
  }

  /** A round never drops past the target. */
  predicate NeverBelow(r: Round, target: nat) {
    if r.found > target then target <= r.left <= r.found else r.left == r.found
  }

  /** A round drops something if the count is above the target. */
  predicate Drops(r: Round, target: nat) {
    r.found > target ==> r.left < r.found
  }

  /** No round drops past the target, and the last one reaches it unless the schedule crashed. */
  predicate Sound(s: Schedule, target: nat) {
    && (forall k | 0 <= k < |s.rounds| :: NeverBelow(s.rounds[k], target))
    && (forall k | 0 <= k < |s.rounds| - 1 :: s.rounds[k].left > target)
    && (!s.crashed ==> s.rounds != [] && s.rounds[|s.rounds| - 1].left <= target)
    && (s.crashed && s.rounds != [] ==> s.rounds[|s.rounds| - 1].left > target)
  }

  predicate AllDrop(s: Schedule, target: nat) {
    !s.crashed && forall k | 0 <= k < |s.rounds| :: Drops(s.rounds[k], target)
  }

  lemma SoundCons(r: Round, tail: Schedule, target: nat)
    requires NeverBelow(r, target) && r.left > target && Sound(tail, target)
    ensures Sound(Schedule([r] + tail.rounds, tail.crashed), target)
    ensures Drops(r, target) && AllDrop(tail, target) ==> AllDrop(Schedule([r] + tail.rounds, tail.crashed), target)
  {
    var rs := [r] + tail.rounds;
    assert forall k | 0 < k < |rs| :: rs[k] == tail.rounds[k - 1];
  }

  lemma RoundIsSound(count: Count, target: nat, time: int, interval: nat)
    requires interval > 0 && (count > target ==> CanDivide(time, interval))
    ensures var left := LeftBy(count, target, time, interval);
            && NeverBelow(Round(count, left), target)
            && (time <= interval ==> left <= target)
            && (RoundsFit(time, interval) ==> Drops(Round(count, left), target))
  {
    hide Quota;
    if count > target {
      QuotaBounds(count, target, time, interval);
    }
  }

  lemma RestFits(time: nat, interval: nat, spent: nat)
    requires interval > 0 && RoundsFit(time, interval)
    ensures RoundsFit(TimeLeft(time, interval, spent), interval)
  {
    var rest := TimeLeft(time, interval, spent);
    if rest > 0 { LessTimeLessRounds(time, rest, interval); }
  }

  /** At most this many rounds run. */
  function MaxRounds(time: int, interval: nat): (n: nat)
    requires interval > 0
  {
    if time > 0 then CeilDiv(time, interval) else 1
  }

  lemma FewerRounds(time: nat, interval: nat, spent: nat)
    requires interval > 0 && time > interval
    ensures MaxRounds(TimeLeft(time, interval, spent), interval) + 1 <= MaxRounds(time, interval)
  {
    hide CeilDiv;
    var rest := TimeLeft(time, interval, spent);
    if rest > 0 {
      LessTimeLessRounds(time, rest, interval);
    } else {
      LessTimeLessRounds(time, time - interval, interval);
      CeilDivBounds(time - interval, interval);
    }
  }

  /**
   Whatever closes or is added between rounds and however long a round takes: no
   forced drop takes the count below the target, at most ceil(time / interval)
   rounds run, and the last one leaves the count at or below the target, unless a
   round divides by zero. If the rounds fit an `int` none does, and every round
   that finds the count above the target drops something.
   */
  lemma {:induction false} ScheduleIsSound(
      count: Count, target: nat, time: int, interval: nat, i: nat, envs: nat -> Surroundings)
    requires interval > 0
    ensures var s := Rounds(count, target, time, interval, i, envs);
            && Sound(s, target) && |s.rounds| <= MaxRounds(time, interval)
            && (RoundsFit(time, interval) ==> AllDrop(s, target))
    decreases if time > 0 then time else 0
  {
    hide CeilDiv, TimeLeft, RoundsFit, LeftBy, CanDivide, NeverBelow, Drops;
    if RoundsFit(time, interval) { FittingDivides(time, interval); }
    assert MaxRounds(time, interval) >= 1 by { if time > 0 { CeilDivBounds(time, interval); } }
    if count <= target || CanDivide(time, interval) {
      RoundIsSound(count, target, time, interval);
      var left := LeftBy(count, target, time, interval);
      if left > target && time > 0 {
        var rest := TimeLeft(time, interval, envs(i).spent);
        if RoundsFit(time, interval) { RestFits(time, interval, envs(i).spent); }
        ScheduleIsSound(envs(i).nextCount, target, rest, interval, i + 1, envs);
        FewerRounds(time, interval, envs(i).spent);
        SoundCons(Round(count, left), Rounds(envs(i).nextCount, target, rest, interval, i + 1, envs), target);
      }
    }
  }

  /** No round overruns its interval and nothing closes or is added in between. */
  ghost predicate Undisturbed(rs: seq<Round>, i: nat, envs: nat -> Surroundings, interval: nat) {
    && (forall k :: k >= i ==> envs(k).spent <= interval)
    && (forall k | 0 <= k < |rs| :: envs(i + k).nextCount == rs[k].left)
  }

  lemma UndisturbedTail(r: Round, tail: seq<Round>, i: nat, envs: nat -> Surroundings, interval: nat)
    requires Undisturbed([r] + tail, i, envs, interval)
    ensures Undisturbed(tail, i + 1, envs, interval)
  {
    var rs := [r] + tail;
    forall j | 0 <= j < |tail| ensures envs(i + 1 + j).nextCount == tail[j].left {
      assert rs[j + 1] == tail[j];
      assert envs(i + (j + 1)).nextCount == rs[j + 1].left;
    }
  }

  /**
   Undisturbed, D drops over R rounds are spread as evenly as integers allow:
   floor(D/R) + 1 in the first D mod R rounds and floor(D/R) after that; a round
   that would drop nothing is not run.
   */
  lemma {:induction false} UndisturbedIsEven(
      count: Count, target: nat, time: nat, interval: nat, i: nat, envs: nat -> Surroundings, k: nat)
    requires interval > 0 && RoundsFit(time, interval) && time > 0 && count > target
    requires var rs := Rounds(count, target, time, interval, i, envs).rounds;
             Undisturbed(rs, i, envs, interval) && k < |rs|
    ensures var rs := Rounds(count, target, time, interval, i, envs).rounds;
            var d, rounds := count - target, CeilDiv(time, interval);
            && rounds > 0
            && rs[k].found - rs[k].left == EvenShare(d, rounds, k)
            && |rs| == if d < rounds then d else rounds
    decreases time
  {
    hide Quota, Rounds, CeilDiv, RoundsFit, EvenShare, Undisturbed, TimeLeft, RoundsRemaining, ToInt32;
    var rs := Rounds(count, target, time, interval, i, envs).rounds;
    var d, rounds := count - target, CeilDiv(time, interval);
    CeilDivBounds(time, interval);
    QuotaIsAShare(count, target, time, interval);
    FirstUndisturbedRound(count, target, time, interval, i, envs);
    var q := CeilDiv(d, rounds);
    if rounds == 1 {
      OneShare(d);
    } else {
      EvenSharesUnfold(d, rounds, k);
      if q < d {
        var tail := Rounds(count - q, target, time - interval, interval, i + 1, envs).rounds;
        assert |tail| > 0 by { RoundsNotEmpty(count - q, target, time - interval, interval, i + 1, envs); }
        assert rs[0] == Round(count, count - q) && (k > 0 ==> rs[k] == tail[k - 1]) && |rs| == 1 + |tail|;
        UndisturbedIsEven(count - q, target, time - interval, interval, i + 1, envs, if k == 0 then 0 else k - 1);
        RestIsShorter(d, rounds);
      } else {
        WholeShareMeansOne(d, rounds);
      }
    }
  }

  /** The first of several undisturbed rounds, and what is left for the others. */
  lemma FirstUndisturbedRound(count: Count, target: nat, time: nat, interval: nat, i: nat, envs: nat -> Surroundings)
    requires interval > 0 && RoundsFit(time, interval) && time > 0 && count > target
    requires Undisturbed(Rounds(count, target, time, interval, i, envs).rounds, i, envs, interval)
    ensures CanDivide(time, interval)
    ensures var rs, q := Rounds(count, target, time, interval, i, envs).rounds, Quota(count, target, time, interval);
            && 1 <= q <= count - target
            && (count - q == target ==> rs == [Round(count, target)])
            && (count - q > target ==>
                  && time > interval && RoundsFit(time - interval, interval)
                  && CeilDiv(time - interval, interval) + 1 == CeilDiv(time, interval)
                  && var tail := Rounds(count - q, target, time - interval, interval, i + 1, envs).rounds;
                     rs == [Round(count, count - q)] + tail && Undisturbed(tail, i + 1, envs, interval))
  {
    hide Quota, CeilDiv, RoundsFit, CanDivide;
    FittingDivides(time, interval);
    QuotaBounds(count, target, time, interval);
    var rs, q := Rounds(count, target, time, interval, i, envs).rounds, Quota(count, target, time, interval);
    if count - q > target {
      LessTimeLessRounds(time, time - interval, interval);
      RestFits(time, interval, 0);
      assert rs[0].left == envs(i + 0).nextCount;
      assert TimeLeft(time, interval, envs(i).spent) == time - interval;
      UndisturbedTail(rs[0], rs[1..], i, envs, interval);
    }
  }

  lemma RoundsNotEmpty(count: Count, target: nat, time: int, interval: nat, i: nat, envs: nat -> Surroundings)
    requires interval > 0 && RoundsFit(time, interval)
    ensures Rounds(count, target, time, interval, i, envs).rounds != []
  {
    hide Rounds, RoundsFit, NeverBelow, Drops, MaxRounds;
    ScheduleIsSound(count, target, time, interval, i, envs);
  }

  lemma OneShare(d: nat)
    ensures CeilDiv(d, 1) == d == EvenShare(d, 1, 0)
  {
  }

  lemma RestIsShorter(d: nat, rounds: nat)
    requires rounds > 1 && d > 0
    ensures CeilDiv(d, rounds) <= d
    ensures var rest := d - CeilDiv(d, rounds);
            (if d < rounds then d else rounds) == 1 + if rest < rounds - 1 then rest else rounds - 1
  {
    CeilDivBounds(d, rounds);
    if d > rounds {
      // d <= (d - rounds + 1) * rounds, so one share is at most d - rounds + 1
      ShareLeavesRounds(d, rounds);
    }
  }

  lemma ShareLeavesRounds(d: nat, rounds: nat)
    requires 1 < rounds < d
    ensures d - CeilDiv(d, rounds) >= rounds - 1
  {
    var k := d - rounds;
    assert k + 1 >= 1 && rounds >= 1;
    assert (k + 1) * rounds == k * rounds + rounds;
    MulLe(1, rounds, k);
    assert d + rounds - 1 <= (k + 1) * rounds + (rounds - 1);
    DivUnique((k + 1) * rounds + (rounds - 1), rounds, k + 1, rounds - 1);
    DivMonotone(d + rounds - 1, (k + 1) * rounds + (rounds - 1), rounds);
  }

  /** If one rounded-up share of several is everything, there was one connection to drop. */
  lemma WholeShareMeansOne(d: nat, rounds: nat)
    requires rounds > 1 && d > 0 && CeilDiv(d, rounds) == d
    ensures d == 1
  {
    if d <= rounds {
      CeilDivBounds(d, rounds);
      DivUnique(1, rounds, 0, 1);
    } else {
      ShareLeavesRounds(d, rounds);
    }
  }

  // ---------------------------------------------------------------------------
  // Fractions
  // ---------------------------------------------------------------------------

  function Clamp(f: real): (r: real) {
    if f < 0.0 then 0.0 else if f > 1.0 then 1.0 else f
  }

  /** `n * clamp(f, 0, 1)` converted to a count. */
  function Share(n: nat, f: real): (k: nat)
    ensures k <= n
    ensures f <= 0.0 ==> k == 0
    ensures f >= 1.0 ==> k == n
    ensures 0.0 <= f <= 1.0 ==> k as real <= n as real * f < (k + 1) as real
  {
    (n as real * Clamp(f)).Floor
  }

  lemma ShareIsMonotone(n: nat, f: real, g: real)
    requires f <= g
    ensures Share(n, f) <= Share(n, g)
  {
    ScaleMonotone(n as real, Clamp(f), Clamp(g));
    FloorMonotone(n as real * Clamp(f), n as real * Clamp(g));
  }

  lemma FloorMonotone(x: real, y: real)
    requires x <= y
    ensures x.Floor <= y.Floor
  {
    assert x.Floor as real <= x && y < y.Floor as real + 1.0;
    assert (x.Floor as real) < (y.Floor + 1) as real;
  }

  lemma ScaleMonotone(n: real, f: real, g: real)
    requires n >= 0.0 && f <= g
    ensures n * f <= n * g
  {
  }

  /** The count captured when draining first started; `dropToRetainFraction` keeps it for later calls. */
  datatype RetainState = Untouched | Captured(startCount: nat)

  function Capture(s: RetainState, count: nat): (r: RetainState) {
    if s.Untouched? then Captured(count) else s
  }

  /** The targets of a sequence of calls, each with the fraction asked for and the count found. */
  function Targets(s: RetainState, calls: seq<(real, nat)>): (ts: seq<nat>)
    ensures |ts| == |calls|
    decreases |calls|
  {
    if calls == [] then []
    else
      var c := Capture(s, calls[0].1);
      [Share(c.startCount, calls[0].0)] + Targets(c, calls[1..])
  }

  lemma {:induction false} TargetsFromCaptured(start: nat, calls: seq<(real, nat)>, i: nat)
    requires i < |calls|
    ensures Targets(Captured(start), calls)[i] == Share(start, calls[i].0)
  {
    if i > 0 {
      TargetsFromCaptured(start, calls[1..], i - 1);
    }
  }

  /**
   Every call aims at its fraction of the count found by the first call, so
   falling fractions give falling targets however the count moved in between.
   */
  lemma TargetsFollowFirstCount(calls: seq<(real, nat)>, i: nat, j: nat)
    requires i <= j < |calls|
    ensures var ts := Targets(Untouched, calls);
            && ts[i] == Share(calls[0].1, calls[i].0)
            && (calls[j].0 <= calls[i].0 ==> ts[j] <= ts[i])
  {
    var start := calls[0].1;
    assert Targets(Untouched, calls) == Targets(Captured(start), calls);
    TargetsFromCaptured(start, calls, i);
    TargetsFromCaptured(start, calls, j);
    if calls[j].0 <= calls[i].0 {
      ShareIsMonotone(start, calls[j].0, calls[i].0);
    }
  }

  /** What a call decides: to drop nothing, some connections at once, or down to a target in rounds. */
  datatype Plan = Nothing | Now(n: nat) | InRounds(target: nat)

  /** `dropConnections(pct, duration, interval)` */
  function PercentPlan(count: nat, pct: real, duration: int, interval: int): (p: Plan) {
    var n := Share(count, pct);
    if duration <= 0 then Now(n)
    else if n <= 0 || interval <= 0 then Nothing
    else InRounds(count - n)
  }

  /** `dropToRetainFraction`, with the count captured by the first call. */
  function RetainPlan(start: nat, count: nat, fraction: real, duration: int, interval: int): (p: Plan) {
    var target := Share(start, fraction);
    if count <= target then Nothing
    else if duration <= 0 || interval <= 0 then Now(count - target)
    else InRounds(target)
  }

  /** The count a plan aims at. */
  function Aim(count: nat, p: Plan): (n: int) {
    match p
    case Nothing => count
    case Now(n) => count - n
    case InRounds(target) => target
  }

  /**
   What the plans aim at: a retained fraction of the first count, never more than
   there is, whether at once or in rounds; and the percentage of the count, except
   exactly if rounds are asked for with no interval, when nothing is dropped.
   */
  lemma PlansAim(start: nat, count: nat, f: real, duration: int, interval: int)
    ensures var retained := Aim(count, RetainPlan(start, count, f, duration, interval));
            retained == if count <= Share(start, f) then count else Share(start, f)
    ensures var kept := Aim(count, PercentPlan(count, f, duration, interval));
            kept == count - Share(count, f) <==> !(duration > 0 && interval <= 0 && Share(count, f) > 0)
    ensures var p := PercentPlan(count, f, duration, interval); p.InRounds? ==> interval > 0 && p.target < count
    ensures var p := RetainPlan(start, count, f, duration, interval); p.InRounds? ==> interval > 0 && p.target < count
  {
  }
}
