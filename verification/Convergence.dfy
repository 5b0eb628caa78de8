/** What repeated calibration of the same tasks comes to: `calibrate_organization_domain_thresholds`
    in apps/tasks/uncertainty.py, called again and again while no task changes. */
module Convergence {
  import opened Arithmetic
  import opened Uncertainty
  import opened Wrappers

  function Repeated(tasks: seq<Task>, threshold: real, minReq: int, times: nat): real {
    if times == 0 then threshold else Calibrated(tasks, Repeated(tasks, threshold, minReq, times - 1), minReq)
  }

  /** A calibration of these tasks leaves the threshold alone. */
  predicate Kept(tasks: seq<Task>, threshold: real, minReq: int) {
    Calibrated(tasks, threshold, minReq) == threshold
  }

  /** Once kept, a threshold is kept forever. */
  lemma {:induction false} StaysKept(tasks: seq<Task>, threshold: real, minReq: int, from: nat, times: nat)
    requires from <= times && Kept(tasks, Repeated(tasks, threshold, minReq, from), minReq)
    ensures Repeated(tasks, threshold, minReq, times) == Repeated(tasks, threshold, minReq, from)
  {
    hide Calibrated;
    if from < times {
      StaysKept(tasks, threshold, minReq, from, times - 1);
    }
  }

  lemma NothingRepeated(tasks: seq<Task>, threshold: real, minReq: int)
    ensures Repeated(tasks, threshold, minReq, 0) == threshold
  {
  }

  lemma {:induction false} RepeatedFromNext(tasks: seq<Task>, threshold: real, minReq: int, times: nat)
    ensures Repeated(tasks, threshold, minReq, times + 1)
         == Repeated(tasks, Calibrated(tasks, threshold, minReq), minReq, times)
  {
    hide Calibrated;
    if times > 0 {
      RepeatedFromNext(tasks, threshold, minReq, times - 1);
    }
  }

  lemma StaysCalibratable(tasks: seq<Task>, threshold: real, minReq: int)
    requires Calibratable(threshold)
    ensures Calibratable(Calibrated(tasks, threshold, minReq))
  {
    hide SplitRate, Lowered, Raised, OnGrid, Round4;
    LoweredBounds(SplitScores(tasks), threshold, SplitRate(tasks));
    RaisedBounds(threshold);
  }

  /** Every change of a calibratable threshold makes the measure smaller. */
  ghost predicate Decreases(tasks: seq<Task>, minReq: int, measure: real -> nat) {
    forall t :: Calibratable(t) && !Kept(tasks, t, minReq) ==> measure(Calibrated(tasks, t, minReq)) < measure(t)
  }

  lemma {:induction false} MeasureUsed(
    tasks: seq<Task>, threshold: real, minReq: int, measure: real -> nat, times: nat)
    requires Calibratable(threshold) && Decreases(tasks, minReq, measure)
    ensures var now := Repeated(tasks, threshold, minReq, times);
      && Calibratable(now)
      && (Kept(tasks, now, minReq) || measure(now) + times <= measure(threshold))
  {
    hide Calibratable, Calibrated;
    if times > 0 {
      MeasureUsed(tasks, threshold, minReq, measure, times - 1);
      StaysCalibratable(tasks, Repeated(tasks, threshold, minReq, times - 1), minReq);
    }
  }

  /** A measure bounds the number of changes. */
  lemma MeasureSettles(tasks: seq<Task>, threshold: real, minReq: int, measure: real -> nat, times: nat)
    requires Calibratable(threshold) && Decreases(tasks, minReq, measure) && measure(threshold) <= times
    ensures var last := Repeated(tasks, threshold, minReq, times); Calibratable(last) && Kept(tasks, last, minReq)
  {
    hide Calibratable, Calibrated, Repeated, Kept;
    MeasureUsed(tasks, threshold, minReq, measure, times);
    var last := Repeated(tasks, threshold, minReq, times);
    var after := measure(Calibrated(tasks, last, minReq));
    assert Kept(tasks, last, minReq) || after < measure(last);
  }

  // ---------- when a threshold is moved ----------

  /** Needless escalations that call for a higher threshold call for one at every
      lower threshold too. */
  lemma RaisesBelow(tasks: seq<Task>, low: real, high: real, minReq: int)
    requires low <= high && Raises(tasks, high, minReq)
    ensures Raises(tasks, low, minReq)
  {
    hide Count, SplitRate;
    CountsFollowThreshold(tasks, low, high);
    var few, many, triaged :=
      Count(tasks, IsFalseEscalation(high)), Count(tasks, IsFalseEscalation(low)), Count(tasks, IsTriaged);
    ShareGrows(few as real, many as real, Max(1.0, triaged as real));
  }

  lemma ShareGrows(few: real, many: real, total: real)
    requires few <= many && total >= 1.0
    ensures few / total <= many / total
  {
    var p, q := few / total, many / total;
    assert p * total == few && q * total == many;
    assert p > q ==> (p - q) * total > 0.0;
  }

  function RoundedDown(x: real): real {
    (x * 10000.0).Floor as real / 10000.0
  }

  /** The highest threshold up to the upper end that no scored split is below: the lowest
      judge score of a split, rounded down to a ten-thousandth. */
  function HighestPredicted(tasks: seq<Task>): (h: real)
    ensures h <= MAX_ADAPTIVE_THRESHOLD
  {
    if tasks == [] then MAX_ADAPTIVE_THRESHOLD
    else
      var rest, t := HighestPredicted(tasks[..|tasks| - 1]), tasks[|tasks| - 1];
      if Split(t) && t.judge.Some? then Min(rest, RoundedDown(t.judge.value)) else rest
  }

  lemma RoundedDownTo(threshold: real, score: real)
    requires OnGrid(threshold)
    ensures score < threshold <==> RoundedDown(score) < threshold
  {
    hide RoundHalfEven;
    var n := RoundHalfEven(threshold * 10000.0);
    assert threshold == n as real / 10000.0;
    assert score < threshold <==> score * 10000.0 < n as real;
    assert score * 10000.0 < n as real <==> (score * 10000.0).Floor < n;
  }

  lemma {:induction false} PredictedUpTo(tasks: seq<Task>, threshold: real)
    requires Calibratable(threshold)
    ensures Count(tasks, IsUnpredicted(threshold)) == 0 <==> threshold <= HighestPredicted(tasks)
  {
    hide OnGrid, RoundedDown, Resolved;
    if tasks != [] {
      PredictedUpTo(tasks[..|tasks| - 1], threshold);
      var t := tasks[|tasks| - 1];
      if Split(t) && t.judge.Some? {
        RoundedDownTo(threshold, t.judge.value);
      }
    }
  }

  lemma {:induction false} HighestOnGrid(tasks: seq<Task>)
    ensures OnGrid(HighestPredicted(tasks))
  {
    hide Split, OnGrid;
    BoundsOnGrid();
    if tasks != [] {
      HighestOnGrid(tasks[..|tasks| - 1]);
      var t := tasks[|tasks| - 1];
      if t.judge.Some? {
        Ten000ths((t.judge.value * 10000.0).Floor);
      }
    }
  }

  lemma {:induction false} ScoresAbove(tasks: seq<Task>, score: real)
    requires score in SplitScores(tasks)
    ensures HighestPredicted(tasks) <= score
  {
    hide Split;
    if tasks != [] {
      if score in SplitScores(tasks[..|tasks| - 1]) {
        ScoresAbove(tasks[..|tasks| - 1], score);
      } else {
        assert RoundedDown(score) <= score;
      }
    }
  }

  lemma {:induction false} NoScores(tasks: seq<Task>)
    requires SplitScores(tasks) == []
    ensures HighestPredicted(tasks) == MAX_ADAPTIVE_THRESHOLD
  {
    hide Split, RoundedDown;
    if tasks != [] {
      NoScores(tasks[..|tasks| - 1]);
    }
  }

  lemma QuartileAbove(tasks: seq<Task>)
    requires SplitScores(tasks) != []
    ensures HighestPredicted(tasks) <= LowerQuartile(SplitScores(tasks))
  {
    hide SplitScores, HighestPredicted, Sorted;
    var scores := SplitScores(tasks);
    SortedSorts(scores);
    assert LowerQuartile(scores) in multiset(Sorted(scores));
    ScoresAbove(tasks, LowerQuartile(scores));
  }

  /** Calibration never lowers a threshold in range exactly when fewer than 35 percent
      are splits and no scored split is below the upper end. */
  lemma NeverLowers(tasks: seq<Task>)
    ensures (forall t :: Calibratable(t) ==> !Lowers(tasks, t)) <==>
      SplitRate(tasks) < 0.35 && HighestPredicted(tasks) == MAX_ADAPTIVE_THRESHOLD
  {
    hide OnGrid, SplitRate, Count, HighestPredicted;
    BoundsOnGrid();
    PredictedUpTo(tasks, MAX_ADAPTIVE_THRESHOLD);
    assert Calibratable(MAX_ADAPTIVE_THRESHOLD);
    forall t | Calibratable(t) && Count(tasks, IsUnpredicted(MAX_ADAPTIVE_THRESHOLD)) == 0
      ensures Count(tasks, IsUnpredicted(t)) == 0
    {
      CountsFollowThreshold(tasks, t, MAX_ADAPTIVE_THRESHOLD);
    }
  }

  /** It never raises one exactly when it does not raise the lower end. */
  lemma NeverRaises(tasks: seq<Task>, minReq: int)
    ensures (forall t :: Calibratable(t) ==> !Raises(tasks, t, minReq)) <==>
      !Raises(tasks, MIN_ADAPTIVE_THRESHOLD, minReq)
  {
    hide OnGrid, Raises;
    BoundsOnGrid();
    assert Calibratable(MIN_ADAPTIVE_THRESHOLD);
    forall t | Calibratable(t) && Raises(tasks, t, minReq)
      ensures Raises(tasks, MIN_ADAPTIVE_THRESHOLD, minReq)
    {
      RaisesBelow(tasks, MIN_ADAPTIVE_THRESHOLD, t, minReq);
    }
  }

  // ---------- thresholds that only move one way ----------

  /** Moves of three hundredths to the lower end of the range, rounded up. */
  function MovesDown(threshold: real): nat {
    if threshold <= MIN_ADAPTIVE_THRESHOLD then 0 else -((MIN_ADAPTIVE_THRESHOLD - threshold) / 0.03).Floor
  }

  lemma MovesDownDrop(before: real, now: real)
    requires now <= Max(MIN_ADAPTIVE_THRESHOLD, before - 0.03) && before > MIN_ADAPTIVE_THRESHOLD
    ensures MovesDown(now) + 1 <= MovesDown(before)
  {
    var a, b := (MIN_ADAPTIVE_THRESHOLD - now) / 0.03, (MIN_ADAPTIVE_THRESHOLD - before) / 0.03;
    assert now > MIN_ADAPTIVE_THRESHOLD ==> a >= b + 1.0;
  }

  lemma OnlyDown(tasks: seq<Task>, minReq: int)
    requires !Raises(tasks, MIN_ADAPTIVE_THRESHOLD, minReq)
    ensures Decreases(tasks, minReq, MovesDown)
  {
    hide SplitRate, Count, Lowered, Raised, OnGrid, Raises, MovesDown;
    NeverRaises(tasks, minReq);
    forall t | Calibratable(t) && !Kept(tasks, t, minReq)
      ensures MovesDown(Calibrated(tasks, t, minReq)) < MovesDown(t)
    {
      LoweredBounds(SplitScores(tasks), t, SplitRate(tasks));
      MovesDownDrop(t, Calibrated(tasks, t, minReq));
    }
  }

  /** Where nothing calls for a higher threshold, and so at every split rate above 0.10,
      calibration converges: at most sixteen changes lead from any calibratable threshold
      to one that no further calibration of the same tasks changes. */
  lemma Converges(tasks: seq<Task>, threshold: real, minReq: int, times: nat)
    requires Calibratable(threshold) && times >= 16
    requires !Raises(tasks, MIN_ADAPTIVE_THRESHOLD, minReq)
    ensures var last := Repeated(tasks, threshold, minReq, times); Calibratable(last) && Kept(tasks, last, minReq)
    ensures Repeated(tasks, threshold, minReq, times) == Repeated(tasks, threshold, minReq, 16)
  {
    hide OnGrid, Raises, Calibrated, Repeated, Kept;
    OnlyDown(tasks, minReq);
    MeasureSettles(tasks, threshold, minReq, MovesDown, 16);
    StaysKept(tasks, threshold, minReq, 16, times);
  }

  /** What a kept threshold above the lower end then says about the tasks: given enough
      resolved ones, every split that a judge scored was predicted, and fewer than
      35 percent were split. */
  lemma SettledMeaning(tasks: seq<Task>, threshold: real, minReq: int)
    requires Calibratable(threshold) && Count(tasks, IsResolved) >= minReq
    requires !Raises(tasks, MIN_ADAPTIVE_THRESHOLD, minReq)
    ensures Kept(tasks, threshold, minReq) && threshold > MIN_ADAPTIVE_THRESHOLD <==>
      && threshold > MIN_ADAPTIVE_THRESHOLD && SplitRate(tasks) < 0.35
      && forall i :: 0 <= i < |tasks| && Split(tasks[i]) && tasks[i].judge.Some? ==> tasks[i].judge.value >= threshold
  {
    hide SplitRate, Count, Calibrated, OnGrid, Raises;
    KeptExactly(tasks, threshold, minReq);
    NeverRaises(tasks, minReq);
    CountZero(tasks, IsUnpredicted(threshold));
    assert forall i :: 0 <= i < |tasks| ==>
      (Passes(tasks[i], IsUnpredicted(threshold)) <==>
       Split(tasks[i]) && tasks[i].judge.Some? && tasks[i].judge.value < threshold);
  }

  /** Pinned and default thresholds need not be calibratable, but the first change
      makes them so: then seventeen changes are enough, from any threshold.  One
      below the range moves up into it. */
  lemma ConvergesFromAnywhere(tasks: seq<Task>, threshold: real, minReq: int)
    requires !Raises(tasks, Min(threshold, MIN_ADAPTIVE_THRESHOLD), minReq)
    ensures var next := Calibrated(tasks, threshold, minReq);
      && (next == threshold || Calibratable(next))
      && (next != threshold && threshold <= MIN_ADAPTIVE_THRESHOLD ==> next == MIN_ADAPTIVE_THRESHOLD)
    ensures Kept(tasks, Repeated(tasks, threshold, minReq, 17), minReq)
  {
    hide OnGrid, SplitRate, Round4, Count, Lowered, Raises, Repeated;
    if Raises(tasks, threshold, minReq) {
      RaisesBelow(tasks, Min(threshold, MIN_ADAPTIVE_THRESHOLD), threshold, minReq);
    }
    if Raises(tasks, MIN_ADAPTIVE_THRESHOLD, minReq) {
      RaisesBelow(tasks, Min(threshold, MIN_ADAPTIVE_THRESHOLD), MIN_ADAPTIVE_THRESHOLD, minReq);
    }
    LoweredBounds(SplitScores(tasks), threshold, SplitRate(tasks));
    if threshold <= MIN_ADAPTIVE_THRESHOLD {
      LoweredFromBelow(SplitScores(tasks), threshold, SplitRate(tasks));
    }
    var next := Calibrated(tasks, threshold, minReq);
    if next == threshold {
      NothingRepeated(tasks, threshold, minReq);
      StaysKept(tasks, threshold, minReq, 0, 17);
    } else {
      Converges(tasks, next, minReq, 16);
      RepeatedFromNext(tasks, threshold, minReq, 16);
    }
  }

  lemma LoweredFromBelow(scores: seq<real>, threshold: real, splitRate: real)
    requires threshold <= MIN_ADAPTIVE_THRESHOLD
    ensures Lowered(scores, threshold, splitRate) == MIN_ADAPTIVE_THRESHOLD
  {
    hide Round4, Anchor;
    BoundsOnGrid();
  }

  /** Moves of five hundredths to the upper end of the range, rounded up. */
  function MovesUp(threshold: real): nat {
    if threshold >= MAX_ADAPTIVE_THRESHOLD then 0 else -((threshold - MAX_ADAPTIVE_THRESHOLD) / 0.05).Floor
  }

  lemma MovesUpDrop(before: real)
    requires before < MAX_ADAPTIVE_THRESHOLD
    ensures MovesUp(Min(MAX_ADAPTIVE_THRESHOLD, before + 0.05)) + 1 <= MovesUp(before)
  {
    var now := Min(MAX_ADAPTIVE_THRESHOLD, before + 0.05);
    var a, b := (now - MAX_ADAPTIVE_THRESHOLD) / 0.05, (before - MAX_ADAPTIVE_THRESHOLD) / 0.05;
    assert now < MAX_ADAPTIVE_THRESHOLD ==> a >= b + 1.0;
  }

  /** If no scored split is below the upper end, at most ten changes are enough: up as
      long as the needless escalations call for it, or down if the splits are frequent. */
  lemma ConvergesUp(tasks: seq<Task>, threshold: real, minReq: int, times: nat)
    requires Calibratable(threshold) && HighestPredicted(tasks) == MAX_ADAPTIVE_THRESHOLD
    requires SplitRate(tasks) < 0.35 && times >= 10
    ensures var last := Repeated(tasks, threshold, minReq, times); Calibratable(last) && Kept(tasks, last, minReq)
    ensures Repeated(tasks, threshold, minReq, times) == Repeated(tasks, threshold, minReq, 10)
  {
    hide SplitRate, Count, HighestPredicted, Raised, OnGrid, Raises, Lowers, MovesUp, Repeated;
    NeverLowers(tasks);
    forall t | Calibratable(t) && !Kept(tasks, t, minReq)
      ensures MovesUp(Calibrated(tasks, t, minReq)) < MovesUp(t)
    {
      RaisedBounds(t);
      MovesUpDrop(t);
    }
    TenMovesUp(threshold);
    MeasureSettles(tasks, threshold, minReq, MovesUp, 10);
    StaysKept(tasks, threshold, minReq, 10, times);
  }

  lemma TenMovesUp(threshold: real)
    requires MIN_ADAPTIVE_THRESHOLD <= threshold
    ensures MovesUp(threshold) <= 10
  {
    if threshold < MAX_ADAPTIVE_THRESHOLD {
      assert (threshold - MAX_ADAPTIVE_THRESHOLD) / 0.05 >= -10.0;
    }
  }

  // ---------- thresholds that move both ways ----------

  /** Calibration keeps no threshold in range, and so never settles, exactly when there
      is enough to go by, some scored split is below the upper end and none below the
      lower one, and even the highest threshold that predicts every split is raised. */
  lemma NoneKeptExactly(tasks: seq<Task>, minReq: int)
    ensures (forall t :: Calibratable(t) ==> !Kept(tasks, t, minReq)) <==>
      && Count(tasks, IsResolved) >= minReq
      && MIN_ADAPTIVE_THRESHOLD <= HighestPredicted(tasks) < MAX_ADAPTIVE_THRESHOLD
      && Raises(tasks, HighestPredicted(tasks), minReq)
  {
    hide OnGrid, SplitRate, Count, HighestPredicted, Calibrated;
    BoundsOnGrid();
    HighestOnGrid(tasks);
    var high := HighestPredicted(tasks);
    if Count(tasks, IsResolved) >= minReq && MIN_ADAPTIVE_THRESHOLD <= high < MAX_ADAPTIVE_THRESHOLD &&
       Raises(tasks, high, minReq) {
      forall t | Calibratable(t) ensures !Kept(tasks, t, minReq) {
        KeptExactly(tasks, t, minReq);
        PredictedUpTo(tasks, t);
        if t <= high {
          RaisesBelow(tasks, t, high, minReq);
        }
      }
    } else {
      var t := if high < MIN_ADAPTIVE_THRESHOLD || SplitRate(tasks) >= 0.35 then MIN_ADAPTIVE_THRESHOLD else high;
      assert Calibratable(t);
      KeptExactly(tasks, t, minReq);
      PredictedUpTo(tasks, t);
    }
  }

  /** Away from the ends of the range, the hundred thresholds up to the highest one that
      predicts every split are not raised: a hundredth where nothing calls for a change. */
  predicate CalmHundredth(tasks: seq<Task>, minReq: int) {
    && 0.48 <= HighestPredicted(tasks)
    && !Raises(tasks, 0.8701, minReq)
    && !Raises(tasks, HighestPredicted(tasks) - 0.0099, minReq)
  }

  /** Four hundredths above the calm one, a threshold goes down by exactly three. */
  lemma NearStep(tasks: seq<Task>, threshold: real)
    requires Calibratable(threshold) && 0.48 <= HighestPredicted(tasks) < threshold <= HighestPredicted(tasks) + 0.04
    requires HighestPredicted(tasks) < MAX_ADAPTIVE_THRESHOLD
    ensures Lowered(SplitScores(tasks), threshold, SplitRate(tasks)) == threshold - 0.03
  {
    hide Round4, SplitScores, SplitRate, HighestPredicted, LowerQuartile;
    var scores := SplitScores(tasks);
    if scores == [] {
      NoScores(tasks);
    } else {
      QuartileAbove(tasks);
    }
    GridMinus(threshold);
  }

  /** A threshold in ten-thousandths. */
  function Ticks(x: real): int {
    RoundHalfEven(x * 10000.0)
  }

  lemma TicksOf(threshold: real, n: int)
    ensures OnGrid(threshold) ==> threshold == Ticks(threshold) as real / 10000.0
    ensures threshold == n as real / 10000.0 ==> Ticks(threshold) == n
  {
    if threshold == n as real / 10000.0 {
      assert threshold * 10000.0 == n as real;
      RoundWhole(n);
    }
  }

  lemma NextOnGrid(low: real, high: real)
    requires OnGrid(low) && OnGrid(high) && low < high
    ensures low + 0.0001 <= high
  {
    hide OnGrid, Ticks;
    TicksOf(low, 0);
    TicksOf(high, 0);
    var a, b := Ticks(low), Ticks(high);
    assert a as real < b as real;
    assert a + 1 <= b;
  }

  /** A threshold that is raised is below the calm hundredth, and not near the upper end. */
  lemma RaisedBelowCalm(tasks: seq<Task>, threshold: real, minReq: int)
    requires OnGrid(threshold) && CalmHundredth(tasks, minReq) && Raises(tasks, threshold, minReq)
    ensures threshold <= HighestPredicted(tasks) - 0.01 && threshold <= 0.87
  {
    hide OnGrid, HighestPredicted, Raises;
    var high := HighestPredicted(tasks);
    HighestOnGrid(tasks);
    if threshold > high - 0.01 {
      Ten000ths(Ticks(high) - 100);
      TicksOf(high, 0);
      NextOnGrid(high - 0.01, threshold);
      RaisesBelow(tasks, high - 0.0099, threshold, minReq);
    }
    if threshold > 0.87 {
      Ten000ths(8700);
      NextOnGrid(0.87, threshold);
      RaisesBelow(tasks, 0.8701, threshold, minReq);
    }
  }

  /** Where a change of the threshold leads. */
  lemma BetweenStep(tasks: seq<Task>, threshold: real, minReq: int)
    requires Calibratable(threshold) && !Kept(tasks, threshold, minReq)
    requires CalmHundredth(tasks, minReq) && SplitRate(tasks) < 0.35
    requires HighestPredicted(tasks) < MAX_ADAPTIVE_THRESHOLD
    ensures var high, next := HighestPredicted(tasks), Calibrated(tasks, threshold, minReq);
      || (threshold <= high - 0.01 && next == threshold + 0.05)
      || (high < threshold <= high + 0.04 && next == threshold - 0.03)
      || (high + 0.04 < threshold && next <= threshold - 0.03)
  {
    hide OnGrid, SplitRate, SplitScores, Count, HighestPredicted, Raises, Lowered, Raised;
    var high := HighestPredicted(tasks);
    PredictedUpTo(tasks, threshold);
    if threshold <= high {
      RaisedBelowCalm(tasks, threshold, minReq);
      RaisedBounds(threshold);
    } else if threshold <= high + 0.04 {
      NearStep(tasks, threshold);
    } else {
      LoweredBounds(SplitScores(tasks), threshold, SplitRate(tasks));
    }
  }

  /** How many moves, five hundredths up from below zero and three down from above it,
      lead to zero. */
  function MovesToCalm(hundredths: int): nat
    decreases -hundredths
  {
    if hundredths < -3 then 1 + MovesToCalm(hundredths + 5)
    else if hundredths == -3 then 7
    else if hundredths == -2 then 2
    else if hundredths == -1 then 5
    else if hundredths == 1 then 3
    else if hundredths == 2 then 6
    else if hundredths == 3 then 1
    else if hundredths == 4 then 4
    else 0
  }

  lemma MovesToCalmDrop(hundredths: int)
    requires hundredths <= 4 && hundredths != 0
    ensures MovesToCalm(if hundredths < 0 then hundredths + 5 else hundredths - 3) < MovesToCalm(hundredths)
  {
  }

  lemma {:induction false} MovesToCalmBound(hundredths: int)
    requires -48 <= hundredths <= 4
    ensures MovesToCalm(hundredths) <= 7 + (if hundredths < -3 then (1 - hundredths) / 5 else 0)
    decreases -hundredths
  {
    if hundredths < -3 {
      MovesToCalmBound(hundredths + 5);
    }
  }

  /** The hundredth that a threshold lies in, counted from the calm one. */
  function Hundredths(high: int, n: int): int {
    (n - high + 99) / 100
  }

  function MovesBetween(high: int, n: int): nat {
    if n > high + 400 then 16 + (n - high - 101) / 300 else MovesToCalm(Hundredths(high, n))
  }

  lemma MovesBetweenDrop(high: int, n: int, next: int)
    requires 4800 <= high < 9200 && 4500 <= n <= 9200 && 4500 <= next
    requires
      || (n <= high - 100 && next == n + 500)
      || (high < n <= high + 400 && next == n - 300)
      || (high + 400 < n && next <= n - 300)
    ensures MovesBetween(high, next) < MovesBetween(high, n) <= 30
  {
    hide MovesToCalm;
    if n <= high + 400 {
      MovesToCalmDrop(Hundredths(high, n));
      MovesToCalmBound(Hundredths(high, n));
    } else if next <= high + 400 {
      MovesToCalmBound(Hundredths(high, next));
    }
  }

  ghost function BetweenMeasure(tasks: seq<Task>): real -> nat {
    t => MovesBetween(Ticks(HighestPredicted(tasks)), Ticks(t))
  }

  lemma BetweenMoves(tasks: seq<Task>, threshold: real, minReq: int)
    requires Calibratable(threshold) && !Kept(tasks, threshold, minReq)
    requires CalmHundredth(tasks, minReq) && SplitRate(tasks) < 0.35
    requires HighestPredicted(tasks) < MAX_ADAPTIVE_THRESHOLD
    ensures var measure := BetweenMeasure(tasks);
      measure(Calibrated(tasks, threshold, minReq)) < measure(threshold) <= 30
  {
    hide OnGrid, SplitRate, HighestPredicted, Calibrated, Raises, Ticks, MovesBetween;
    var high, next := HighestPredicted(tasks), Calibrated(tasks, threshold, minReq);
    BetweenStep(tasks, threshold, minReq);
    HighestOnGrid(tasks);
    StaysCalibratable(tasks, threshold, minReq);
    TicksOf(threshold, 0);
    TicksOf(high, 0);
    TicksOf(next, 0);
    MovesBetweenDrop(Ticks(high), Ticks(threshold), Ticks(next));
  }

  /** Even where thresholds move both ways, calibration converges if nothing calls for
      a change in the calm hundredth: moving up by five hundredths and down by three leads
      into it from everywhere, in at most thirty changes. */
  lemma ConvergesBetween(tasks: seq<Task>, threshold: real, minReq: int, times: nat)
    requires Calibratable(threshold) && CalmHundredth(tasks, minReq) && times >= 30
    ensures var last := Repeated(tasks, threshold, minReq, times); Calibratable(last) && Kept(tasks, last, minReq)
    ensures Repeated(tasks, threshold, minReq, times) == Repeated(tasks, threshold, minReq, 30)
  {
    hide OnGrid, SplitRate, Count, HighestPredicted, Repeated, Calibrated, Kept, BetweenMeasure;
    if !Raises(tasks, MIN_ADAPTIVE_THRESHOLD, minReq) {
      Converges(tasks, threshold, minReq, 30);
    } else if HighestPredicted(tasks) == MAX_ADAPTIVE_THRESHOLD {
      ConvergesUp(tasks, threshold, minReq, 30);
    } else if !Kept(tasks, threshold, minReq) {
      forall t | Calibratable(t) && !Kept(tasks, t, minReq)
        ensures BetweenMeasure(tasks)(Calibrated(tasks, t, minReq)) < BetweenMeasure(tasks)(t)
      {
        BetweenMoves(tasks, t, minReq);
      }
      BetweenMoves(tasks, threshold, minReq);
      MeasureSettles(tasks, threshold, minReq, BetweenMeasure(tasks), 30);
    } else {
      NothingRepeated(tasks, threshold, minReq);
      StaysKept(tasks, threshold, minReq, 0, 30);
    }
    StaysKept(tasks, threshold, minReq, 30, times);
    assert Calibratable(Repeated(tasks, threshold, minReq, 30));
  }

  // ---------- how sharp the bounds are ----------

  /** One split task that the judge was sure to be split. */
  const SURE_SPLIT := [Task(3, 3, "tie", None, Some(0.95))]

  lemma SureSplitCounts(threshold: real)
    requires threshold <= MAX_ADAPTIVE_THRESHOLD
    ensures Count(SURE_SPLIT, IsResolved) == 1 && Count(SURE_SPLIT, IsUnpredicted(threshold)) == 0
    ensures SplitRate(SURE_SPLIT) == 1.0 && SplitScores(SURE_SPLIT) == [0.95]
  {
    Ten000ths(10000);
    assert SURE_SPLIT[..0] == [];
  }

  lemma {:induction false} FifteenSteps(times: nat)
    requires times <= 15
    ensures Repeated(SURE_SPLIT, MAX_ADAPTIVE_THRESHOLD, 1, times) == MAX_ADAPTIVE_THRESHOLD - 0.03 * times as real
  {
    hide Round4, Count, SplitRate, SplitScores, Calibrated;
    if times > 0 {
      FifteenSteps(times - 1);
      SureSplitStep(MAX_ADAPTIVE_THRESHOLD - 0.03 * (times - 1) as real);
      Ten000ths(9200 - 300 * times);
      assert (9200 - 300 * times) as real / 10000.0 == MAX_ADAPTIVE_THRESHOLD - 0.03 * times as real;
    }
  }

  /** Sixteen changes are really needed: from the upper end, each of the first
      fifteen goes down by exactly three hundredths. */
  lemma SixteenNeeded(times: nat)
    requires times < 16
    ensures Repeated(SURE_SPLIT, MAX_ADAPTIVE_THRESHOLD, 1, times) == MAX_ADAPTIVE_THRESHOLD - 0.03 * times as real
    ensures Repeated(SURE_SPLIT, MAX_ADAPTIVE_THRESHOLD, 1, 16) == MIN_ADAPTIVE_THRESHOLD
  {
    hide Round4, Count, SplitRate, SplitScores, Calibrated;
    FifteenSteps(times);
    FifteenSteps(15);
    SureSplitStep(MAX_ADAPTIVE_THRESHOLD - 0.03 * 15.0);
    BoundsOnGrid();
  }

  lemma SureSplitStep(threshold: real)
    requires MIN_ADAPTIVE_THRESHOLD <= threshold <= MAX_ADAPTIVE_THRESHOLD
    ensures Calibrated(SURE_SPLIT, threshold, 1) == Round4(Max(MIN_ADAPTIVE_THRESHOLD, threshold - 0.03))
  {
    hide Round4, Count, SplitRate, SplitScores;
    SureSplitCounts(threshold);
    SortedSorts([0.95]);
    assert LowerQuartile([0.95]) == 0.95;
  }

  /** `n` tasks that were escalated for nothing, and one split. */
  function MostlyNeedless(n: nat, needless: real, split: real): seq<Task> {
    if n == 0 then [Task(3, 3, "tie", None, Some(split))]
    else MostlyNeedless(n - 1, needless, split) + [Task(3, 3, "response_a", Some(1.0), Some(needless))]
  }

  lemma CountAppend(tasks: seq<Task>, t: Task, test: Test)
    ensures Count(tasks + [t], test) == Count(tasks, test) + if Passes(t, test) then 1 else 0
  {
    assert (tasks + [t])[..|tasks|] == tasks;
  }

  lemma ScoresAppend(tasks: seq<Task>, t: Task)
    ensures SplitScores(tasks + [t]) == SplitScores(tasks) + if Split(t) && t.judge.Some? then [t.judge.value] else []
  {
    assert (tasks + [t])[..|tasks|] == tasks;
  }

  lemma {:induction false} MostlyNeedlessCounts(n: nat, needless: real, split: real, threshold: real)
    ensures var tasks := MostlyNeedless(n, needless, split);
      && Count(tasks, IsResolved) == n + 1 && Count(tasks, IsSplit) == 1
      && Count(tasks, IsUnpredicted(threshold)) == (if threshold > split then 1 else 0)
      && Count(tasks, IsFalseEscalation(threshold)) == (if threshold <= needless then n else 0)
      && SplitScores(tasks) == [split]
      && Count(tasks, IsTriaged) == n + 1
  {
    hide Count, SplitScores;
    var tasks, t := if n == 0 then [] else MostlyNeedless(n - 1, needless, split),
      if n == 0 then Task(3, 3, "tie", None, Some(split)) else Task(3, 3, "response_a", Some(1.0), Some(needless));
    if n == 0 {
      NothingCounted([]);
    } else {
      MostlyNeedlessCounts(n - 1, needless, split, threshold);
    }
    assert MostlyNeedless(n, needless, split) == tasks + [t] && tasks[..0] == [];
    CountAppend(tasks, t, IsTriaged);
    CountAppend(tasks, t, IsResolved);
    CountAppend(tasks, t, IsSplit);
    CountAppend(tasks, t, IsUnpredicted(threshold));
    CountAppend(tasks, t, IsFalseEscalation(threshold));
    ScoresAppend(tasks, t);
  }

  lemma OneSplitInTen(needless: real, split: real)
    ensures SplitRate(MostlyNeedless(9, needless, split)) == 0.10
  {
    hide Count, SplitScores, MostlyNeedless, OnGrid;
    MostlyNeedlessCounts(9, needless, split, 0.0);
    Ten000ths(1000);
    assert 1 as real / 10 as real == 0.10;
  }

  /** With a split rate of 0.10 calibration need not converge: on these ten tasks it
      changes every calibratable threshold, up to 0.58 for the needless escalations
      and down above it for the split. */
  lemma NeverSettles(threshold: real)
    requires Calibratable(threshold)
    ensures SplitRate(MostlyNeedless(9, 0.95, 0.58)) == 0.10
    ensures !Kept(MostlyNeedless(9, 0.95, 0.58), threshold, 3)
    ensures Calibrated(MostlyNeedless(9, 0.95, 0.58), threshold, 3) > threshold <==> threshold <= 0.58
  {
    hide Count, SplitScores, MostlyNeedless, OnGrid, SplitRate;
    var tasks := MostlyNeedless(9, 0.95, 0.58);
    MostlyNeedlessCounts(9, 0.95, 0.58, threshold);
    OneSplitInTen(0.95, 0.58);
    KeptExactly(tasks, threshold, 3);
    if threshold <= 0.58 {
      RaisedBounds(threshold);
    } else {
      LoweredBounds(SplitScores(tasks), threshold, SplitRate(tasks));
    }
  }

  /** Ten tasks on which nothing calls for a change from 0.5707 to 0.5805. */
  const ALMOST_CALM := MostlyNeedless(9, 0.5706, 0.5805)

  lemma AlmostCalmStep(n: int)
    requires 4500 <= n <= 5706 || 5805 < n <= 6206
    ensures Calibrated(ALMOST_CALM, n as real / 10000.0, 3)
         == (if n <= 5706 then n + 500 else n - 300) as real / 10000.0
  {
    hide Count, SplitScores, MostlyNeedless, OnGrid, SplitRate, Round4, LowerQuartile;
    var threshold := n as real / 10000.0;
    MostlyNeedlessCounts(9, 0.5706, 0.5805, threshold);
    OneSplitInTen(0.5706, 0.5805);
    Ten000ths(n);
    if n <= 5706 {
      Ten000ths(n + 500);
    } else {
      OneScore(0.5805);
      LoweredAboveAlmostCalm(n);
    }
  }

  lemma OneScore(score: real)
    ensures LowerQuartile([score]) == score
  {
    assert Sorted([score][1..]) == [];
  }

  lemma LoweredAboveAlmostCalm(n: int)
    requires 5805 < n <= 6206
    ensures Lowered([0.5805], n as real / 10000.0, 0.10) == (n - 300) as real / 10000.0
  {
    hide LowerQuartile, Round4;
    OneScore(0.5805);
    Ten000ths(n - 300);
    if n == 6206 {
      HalfRoundedUp();
    }
  }

  /** The middle between two ten-thousandths goes to the even one. */
  lemma HalfRoundedUp()
    ensures Round4(0.59055) == 0.5906
  {
    assert (0.59055 * 10000.0).Floor == 5905;
  }

  /** The cycle, in ten-thousandths. */
  const CYCLE := [5706, 6206, 5906, 5606, 6106, 5806, 5506, 6006]

  lemma {:induction false} AlmostCalmOrbit(times: nat)
    ensures Repeated(ALMOST_CALM, 0.5706, 3, times) == CYCLE[times % 8] as real / 10000.0
  {
    hide Calibrated, MostlyNeedless;
    if times > 0 {
      AlmostCalmOrbit(times - 1);
      AlmostCalmStep(CYCLE[(times - 1) % 8]);
    }
  }

  lemma AlmostCalmHighest()
    ensures HighestPredicted(ALMOST_CALM) == 0.5805
  {
    hide Count, SplitScores, MostlyNeedless, OnGrid, HighestPredicted;
    MostlyNeedlessCounts(9, 0.5706, 0.5805, 0.5805);
    MostlyNeedlessCounts(9, 0.5706, 0.5805, 0.5806);
    Ten000ths(5805);
    Ten000ths(5806);
    PredictedUpTo(ALMOST_CALM, 0.5805);
    PredictedUpTo(ALMOST_CALM, 0.5806);
    HighestOnGrid(ALMOST_CALM);
    if HighestPredicted(ALMOST_CALM) > 0.5805 {
      NextOnGrid(0.5805, HighestPredicted(ALMOST_CALM));
    }
  }

  lemma AlmostCalm()
    ensures var high := HighestPredicted(ALMOST_CALM);
      0.48 <= high && !Raises(ALMOST_CALM, 0.8701, 3) && !Raises(ALMOST_CALM, high - 0.0098, 3)
  {
    hide MostlyNeedless, Count, HighestPredicted, SplitRate;
    AlmostCalmHighest();
    MostlyNeedlessCounts(9, 0.5706, 0.5805, 0.5707);
    MostlyNeedlessCounts(9, 0.5706, 0.5805, 0.8701);
  }

  /** The whole hundredth is needed: where all but its lowest ten-thousandth is calm,
      calibration can go round in a cycle of eight thresholds for ever. */
  lemma AlmostCalmCycles(times: nat)
    ensures var high := HighestPredicted(ALMOST_CALM);
      0.48 <= high && !Raises(ALMOST_CALM, 0.8701, 3) && !Raises(ALMOST_CALM, high - 0.0098, 3)
    ensures !Kept(ALMOST_CALM, Repeated(ALMOST_CALM, 0.5706, 3, times), 3)
    ensures Repeated(ALMOST_CALM, 0.5706, 3, times + 8) == Repeated(ALMOST_CALM, 0.5706, 3, times)
  {
    hide Calibrated, MostlyNeedless, HighestPredicted, Repeated, Raises;
    AlmostCalm();
    AlmostCalmOrbit(times);
    AlmostCalmOrbit(times + 8);
    AlmostCalmStep(CYCLE[times % 8]);
  }
}
