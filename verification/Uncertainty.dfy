/** Calibration of the escalation thresholds of an organization's domains:
    `calibrate_organization_domain_thresholds` in apps/tasks/uncertainty.py. */
module Uncertainty {
  import opened Arithmetic
  import opened Sequences
  import opened Wrappers

  const MIN_ADAPTIVE_THRESHOLD := 0.45
  const MAX_ADAPTIVE_THRESHOLD := 0.92

  /** The columns of a task that calibration reads. */
  datatype Task = Task(
    annotations: nat, required: nat, choice: string, score: Option<real>, judge: Option<real>)

  /** The stored columns of a domain's policy. */
  datatype Policy = Policy(
    threshold: real, autoCalibrate: bool, triaged: nat, resolved: nat, splits: nat, unpredicted: nat,
    falseEscalations: nat, splitRate: real)

  // ---------- what is counted ----------

  predicate Resolved(t: Task) {
    t.choice != "" || t.annotations >= t.required
  }

  /** A resolved task on which the annotators were split. */
  predicate Split(t: Task) {
    Resolved(t) && (t.choice in ["", "needs_review", "tie"] || (t.score.Some? && t.score.value <= 0.5001))
  }

  datatype Test = IsTriaged | IsResolved | IsSplit | IsUnpredicted(threshold: real) | IsFalseEscalation(threshold: real)

  predicate Passes(t: Task, test: Test) {
    match test
    case IsTriaged => t.judge.Some?
    case IsResolved => Resolved(t)
    case IsSplit => Split(t)
    case IsUnpredicted(threshold) => Split(t) && t.judge.Some? && t.judge.value < threshold
    case IsFalseEscalation(threshold) =>
      && Resolved(t) && !Split(t) && t.judge.Some? && t.judge.value >= threshold
      && t.choice in ["response_a", "response_b"] && t.score.Some? && t.score.value >= 0.95
  }

  function Count(tasks: seq<Task>, test: Test): (n: nat)
    ensures n <= |tasks|
  {
    if tasks == [] then 0
    else Count(tasks[..|tasks| - 1], test) + if Passes(tasks[|tasks| - 1], test) then 1 else 0
  }

  lemma CountNext(tasks: seq<Task>, i: nat, test: Test)
    requires i < |tasks|
    ensures Count(tasks[..i + 1], test) == Count(tasks[..i], test) + if Passes(tasks[i], test) then 1 else 0
  {
    assert tasks[..i + 1][..i] == tasks[..i];
  }

  lemma {:induction false} CountZero(tasks: seq<Task>, test: Test)
    ensures Count(tasks, test) == 0 <==> forall i :: 0 <= i < |tasks| ==> !Passes(tasks[i], test)
  {
    if tasks != [] {
      CountZero(tasks[..|tasks| - 1], test);
      assert forall i :: 0 <= i < |tasks| - 1 ==> tasks[..|tasks| - 1][i] == tasks[i];
    }
  }

  lemma {:induction false} CountImplied(tasks: seq<Task>, test: Test, weaker: Test)
    requires forall t :: Passes(t, test) ==> Passes(t, weaker)
    ensures Count(tasks, test) <= Count(tasks, weaker)
  {
    if tasks != [] {
      CountImplied(tasks[..|tasks| - 1], test, weaker);
    }
  }

  /** Lowering the threshold predicts more splits and escalates more for nothing. */
  lemma CountsFollowThreshold(tasks: seq<Task>, low: real, high: real)
    requires low <= high
    ensures Count(tasks, IsUnpredicted(low)) <= Count(tasks, IsUnpredicted(high)) <= Count(tasks, IsSplit)
    ensures Count(tasks, IsFalseEscalation(high)) <= Count(tasks, IsFalseEscalation(low)) <= Count(tasks, IsTriaged)
  {
    CountImplied(tasks, IsUnpredicted(low), IsUnpredicted(high));
    CountImplied(tasks, IsUnpredicted(high), IsSplit);
    CountImplied(tasks, IsFalseEscalation(high), IsFalseEscalation(low));
    CountImplied(tasks, IsFalseEscalation(low), IsTriaged);
  }

  function SplitRate(tasks: seq<Task>): real {
    var resolved := Count(tasks, IsResolved);
    if resolved == 0 then 0.0 else Round4(Count(tasks, IsSplit) as real / resolved as real)
  }

  // ---------- judge scores of split tasks ----------

  function SplitScores(tasks: seq<Task>): seq<real> {
    if tasks == [] then []
    else
      var t := tasks[|tasks| - 1];
      SplitScores(tasks[..|tasks| - 1]) + if Split(t) && t.judge.Some? then [t.judge.value] else []
  }

  function Insert(x: real, s: seq<real>): (r: seq<real>)
    ensures |r| == |s| + 1
  {
    if s == [] || x <= s[0] then [x] + s else [s[0]] + Insert(x, s[1..])
  }

  function Sorted(s: seq<real>): (r: seq<real>)
    ensures |r| == |s|
  {
    if s == [] then [] else Insert(s[0], Sorted(s[1..]))
  }

  lemma {:induction false} InsertSorts(x: real, s: seq<real>)
    requires Ascending(s)
    ensures Ascending(Insert(x, s))
    ensures s != [] ==> Insert(x, s)[0] == Min(x, s[0])
  {
    if s != [] && x > s[0] {
      InsertSorts(x, s[1..]);
      if |s| > 1 {
        assert s[0] <= s[1];
      }
    }
  }

  lemma {:induction false} InsertKeeps(x: real, s: seq<real>)
    ensures multiset(Insert(x, s)) == multiset(s) + multiset{x}
  {
    if s != [] && x > s[0] {
      InsertKeeps(x, s[1..]);
      assert s == [s[0]] + s[1..];
    }
  }

  lemma {:induction false} SortedSorts(s: seq<real>)
    ensures Ascending(Sorted(s)) && multiset(Sorted(s)) == multiset(s)
  {
    hide Insert;
    if s != [] {
      SortedSorts(s[1..]);
      InsertSorts(s[0], Sorted(s[1..]));
      InsertKeeps(s[0], Sorted(s[1..]));
      assert s == [s[0]] + s[1..];
    }
  }

  /** The lower quartile: the element at a quarter of the sorted scores. */
  function LowerQuartile(scores: seq<real>): real
    requires scores != []
  {
    Sorted(scores)[(|scores| - 1) / 4]
  }

  /** How many scores are below `x`, or not above it. */
  function Ranked(scores: seq<real>, x: real, strict: bool): nat {
    if scores == [] then 0
    else (if scores[0] < x || (scores[0] == x && !strict) then 1 else 0) + Ranked(scores[1..], x, strict)
  }

  lemma {:induction false} RankedInsert(y: real, scores: seq<real>, x: real, strict: bool)
    ensures Ranked(Insert(y, scores), x, strict) == Ranked([y], x, strict) + Ranked(scores, x, strict)
  {
    if scores != [] && y > scores[0] {
      RankedInsert(y, scores[1..], x, strict);
    } else {
      assert ([y] + scores)[1..] == scores;
    }
  }

  lemma {:induction false} RankedSorted(scores: seq<real>, x: real, strict: bool)
    ensures Ranked(Sorted(scores), x, strict) == Ranked(scores, x, strict)
  {
    hide Insert;
    if scores != [] {
      RankedSorted(scores[1..], x, strict);
      RankedInsert(scores[0], Sorted(scores[1..]), x, strict);
    }
  }

  lemma {:induction false} RankedAscending(scores: seq<real>, k: nat, x: real)
    requires Ascending(scores) && k < |scores|
    ensures x <= scores[k] ==> Ranked(scores, x, true) <= k
    ensures x >= scores[k] ==> Ranked(scores, x, false) > k
  {
    if k == 0 {
      if x <= scores[0] {
        RankedNone(scores, x);
      }
    } else {
      assert scores[0] <= scores[k] && scores[1..][k - 1] == scores[k];
      RankedAscending(scores[1..], k - 1, x);
    }
  }

  lemma {:induction false} RankedNone(scores: seq<real>, x: real)
    requires Ascending(scores) && (scores != [] ==> x <= scores[0])
    ensures Ranked(scores, x, true) == 0
  {
    if |scores| > 1 {
      assert scores[0] <= scores[1];
      RankedNone(scores[1..], x);
    }
  }

  /** The lower quartile is one of the scores; at most a quarter of the others are below
      it, and more than that are not above it, itself included. */
  lemma QuartileExact(scores: seq<real>)
    requires scores != []
    ensures var q := LowerQuartile(scores);
      q in scores && 4 * Ranked(scores, q, true) <= |scores| - 1 < 4 * Ranked(scores, q, false)
  {
    hide Sorted, Ranked;
    var q, k := LowerQuartile(scores), (|scores| - 1) / 4;
    SortedSorts(scores);
    RankedSorted(scores, q, true);
    RankedSorted(scores, q, false);
    RankedAscending(Sorted(scores), k, q);
    assert q in multiset(Sorted(scores));
  }

  // ---------- the new threshold ----------

  /** Whether the domain's splits call for a lower threshold. */
  predicate Lowers(tasks: seq<Task>, threshold: real) {
    Count(tasks, IsUnpredicted(threshold)) > 0 || SplitRate(tasks) >= 0.35
  }

  /** Whether, the splits being few and predicted, needless escalations call for a
      higher one. */
  predicate Raises(tasks: seq<Task>, threshold: real, minReq: int) {
    var needless, triaged := Count(tasks, IsFalseEscalation(threshold)), Count(tasks, IsTriaged);
    && Count(tasks, IsUnpredicted(threshold)) == 0
    && SplitRate(tasks) <= 0.10
    && (needless >= 2 || (triaged >= minReq && needless as real / Max(1.0, triaged as real) >= 0.50))
  }

  function Anchor(scores: seq<real>, threshold: real, splitRate: real): real {
    Max(MIN_ADAPTIVE_THRESHOLD,
      if scores != [] then LowerQuartile(scores) - 0.02 else threshold - 0.08 * (1.0 + splitRate))
  }

  function Lowered(scores: seq<real>, threshold: real, splitRate: real): real {
    var damped := 0.50 * threshold + 0.50 * Anchor(scores, threshold, splitRate);
    var stepped := Min(threshold - 0.03, damped);
    Round4(Min(MAX_ADAPTIVE_THRESHOLD, Max(MIN_ADAPTIVE_THRESHOLD, stepped)))
  }

  function Raised(threshold: real): real {
    Round4(Min(MAX_ADAPTIVE_THRESHOLD, threshold + 0.05))
  }

  /** The threshold after one calibration with auto-calibration on. */
  function Calibrated(tasks: seq<Task>, threshold: real, minReq: int): real {
    if Count(tasks, IsResolved) < minReq then threshold
    else if Lowers(tasks, threshold) then Lowered(SplitScores(tasks), threshold, SplitRate(tasks))
    else if Raises(tasks, threshold, minReq) then Raised(threshold)
    else threshold
  }

  /** The policy that calibration stores, if the domain is evaluated at all. */
  function Recalibration(
    tasks: seq<Task>, existing: Option<Policy>, defaultThreshold: real, minSamples: int): Option<Policy>
  {
    if tasks == [] && existing == None then None
    else
      var current := if existing.Some? then existing.value.threshold else defaultThreshold;
      var auto := existing.Some? ==> existing.value.autoCalibrate;
      var minReq := if minSamples > 1 then minSamples else 1;
      Some(Policy(
        if auto then Calibrated(tasks, current, minReq) else current,
        auto, Count(tasks, IsTriaged), Count(tasks, IsResolved), Count(tasks, IsSplit),
        Count(tasks, IsUnpredicted(current)), Count(tasks, IsFalseEscalation(current)), SplitRate(tasks)))
  }

  /** The threshold of a domain moved by half a hundredth or more. */
  predicate Moved(before: Option<Policy>, after: Option<Policy>, defaultThreshold: real) {
    after.Some? &&
    var current := if before.Some? then before.value.threshold else defaultThreshold;
    after.value.threshold - current >= 0.005 || current - after.value.threshold >= 0.005
  }

  method CalibrateDomain(tasks: seq<Task>, existing: Option<Policy>, defaultThreshold: real, minSamples: int)
    returns (policy: Option<Policy>, adjusted: bool)
    ensures policy == Recalibration(tasks, existing, defaultThreshold, minSamples)
    ensures adjusted <==> Moved(existing, policy, defaultThreshold)
  {
    hide Round4, Passes, Count, SplitScores, LowerQuartile;
    if tasks == [] && existing == None {
      return None, false;
    }
    var minReq := if minSamples > 1 then minSamples else 1;
    var current := if existing.Some? then existing.value.threshold else defaultThreshold;
    var auto := if existing == None then true else existing.value.autoCalibrate;
    var triaged, resolved, splits, unpredicted, falseEscalations, scores := Tally(tasks, current);
    var rate := if resolved > 0 then Round4(splits as real / resolved as real) else 0.0;

    var threshold := current;
    if auto && resolved >= minReq {
      if unpredicted > 0 || rate >= 0.35 {
        var anchor;
        if scores != [] {
          anchor := Max(MIN_ADAPTIVE_THRESHOLD, LowerQuartile(scores) - 0.02);
        } else {
          anchor := Max(MIN_ADAPTIVE_THRESHOLD, current - 0.08 * (1.0 + rate));
        }
        var damped := 0.50 * current + 0.50 * anchor;
        var stepped := Min(current - 0.03, damped);
        threshold := Round4(Min(MAX_ADAPTIVE_THRESHOLD, Max(MIN_ADAPTIVE_THRESHOLD, stepped)));
      } else if unpredicted == 0 && rate <= 0.10 &&
                (falseEscalations >= 2 ||
                 (triaged >= minReq && falseEscalations as real / Max(1.0, triaged as real) >= 0.50)) {
        threshold := Round4(Min(MAX_ADAPTIVE_THRESHOLD, current + 0.05));
      }
    }
    policy := Some(Policy(threshold, auto, triaged, resolved, splits, unpredicted, falseEscalations, rate));
    adjusted := threshold - current >= 0.005 || current - threshold >= 0.005;
  }

  /** The counting loop. */
  method Tally(tasks: seq<Task>, current: real)
    returns (triaged: nat, resolved: nat, splits: nat, unpredicted: nat, falseEscalations: nat, scores: seq<real>)
    ensures triaged == Count(tasks, IsTriaged) && resolved == Count(tasks, IsResolved)
    ensures splits == Count(tasks, IsSplit) && unpredicted == Count(tasks, IsUnpredicted(current))
    ensures falseEscalations == Count(tasks, IsFalseEscalation(current)) && scores == SplitScores(tasks)
  {
    hide Count, SplitScores;
    triaged, resolved, splits, unpredicted, falseEscalations, scores := 0, 0, 0, 0, 0, [];
    NothingCounted(tasks);
    for i := 0 to |tasks|
      invariant triaged == Count(tasks[..i], IsTriaged) && resolved == Count(tasks[..i], IsResolved)
      invariant splits == Count(tasks[..i], IsSplit) && unpredicted == Count(tasks[..i], IsUnpredicted(current))
      invariant falseEscalations == Count(tasks[..i], IsFalseEscalation(current)) && scores == SplitScores(tasks[..i])
    {
      var t := tasks[i];
      CountNext(tasks, i, IsTriaged);
      CountNext(tasks, i, IsResolved);
      CountNext(tasks, i, IsSplit);
      CountNext(tasks, i, IsUnpredicted(current));
      CountNext(tasks, i, IsFalseEscalation(current));
      ScoresNext(tasks, i);
      if t.judge.Some? {
        triaged := triaged + 1;
      }
      if t.choice == "" && t.annotations < t.required {
        continue;
      }
      resolved := resolved + 1;
      if t.choice in ["", "needs_review", "tie"] || (t.score.Some? && t.score.value <= 0.5001) {
        splits := splits + 1;
        if t.judge.Some? {
          scores := scores + [t.judge.value];
          if t.judge.value < current {
            unpredicted := unpredicted + 1;
          }
        }
      } else if t.judge.Some? && t.judge.value >= current && t.choice in ["response_a", "response_b"] &&
                (if t.score.Some? then t.score.value else 0.0) >= 0.95 {
        falseEscalations := falseEscalations + 1;
      }
    }
    assert tasks[..|tasks|] == tasks;
  }

  lemma NothingCounted(tasks: seq<Task>)
    ensures forall test :: Count(tasks[..0], test) == 0
    ensures SplitScores(tasks[..0]) == []
  {
  }

  lemma ScoresNext(tasks: seq<Task>, i: nat)
    requires i < |tasks|
    ensures var t := tasks[i];
      SplitScores(tasks[..i + 1]) == SplitScores(tasks[..i]) + if Split(t) && t.judge.Some? then [t.judge.value] else []
  {
    assert tasks[..i + 1][..i] == tasks[..i];
  }

  // ---------- one calibration ----------

  /** A threshold that calibration itself can have chosen. */
  ghost predicate Calibratable(threshold: real) {
    OnGrid(threshold) && MIN_ADAPTIVE_THRESHOLD <= threshold <= MAX_ADAPTIVE_THRESHOLD
  }

  lemma BoundsOnGrid()
    ensures OnGrid(MIN_ADAPTIVE_THRESHOLD) && OnGrid(MAX_ADAPTIVE_THRESHOLD)
  {
    Ten000ths(4500);
    Ten000ths(9200);
  }

  /** Whatever the scores, a lowered threshold is in range, and at least three
      hundredths down unless it hits the lower end. */
  lemma LoweredBounds(scores: seq<real>, threshold: real, splitRate: real)
    ensures var low := Lowered(scores, threshold, splitRate);
      && Calibratable(low)
      && (OnGrid(threshold) ==> low <= Max(MIN_ADAPTIVE_THRESHOLD, threshold - 0.03))
  {
    hide Round4, Anchor;
    BoundsOnGrid();
    var damped := 0.50 * threshold + 0.50 * Anchor(scores, threshold, splitRate);
    var clamped := Min(MAX_ADAPTIVE_THRESHOLD, Max(MIN_ADAPTIVE_THRESHOLD, Min(threshold - 0.03, damped)));
    Round4OnGrid(clamped);
    Round4Monotone(MIN_ADAPTIVE_THRESHOLD, clamped);
    Round4Monotone(clamped, MAX_ADAPTIVE_THRESHOLD);
    if OnGrid(threshold) {
      GridMinus(threshold);
      if threshold - 0.03 <= MIN_ADAPTIVE_THRESHOLD {
        Round4Monotone(clamped, MIN_ADAPTIVE_THRESHOLD);
      } else {
        Round4Monotone(clamped, threshold - 0.03);
      }
    }
  }

  lemma GridMinus(threshold: real)
    requires OnGrid(threshold)
    ensures OnGrid(threshold - 0.03)
  {
    Ten000ths(RoundHalfEven(threshold * 10000.0) - 300);
  }

  /** A calibratable threshold is kept exactly when there is too little to go by, or
      nothing calls for a change, or it is already at the end it should move to. */
  lemma KeptExactly(tasks: seq<Task>, threshold: real, minReq: int)
    requires Calibratable(threshold)
    ensures Calibrated(tasks, threshold, minReq) == threshold <==>
      || Count(tasks, IsResolved) < minReq
      || (&& (Lowers(tasks, threshold) ==> threshold == MIN_ADAPTIVE_THRESHOLD)
          && (Raises(tasks, threshold, minReq) ==> threshold == MAX_ADAPTIVE_THRESHOLD))
  {
    hide SplitRate, Lowered, OnGrid, Round4;
    LoweredBounds(SplitScores(tasks), threshold, SplitRate(tasks));
    RaisedBounds(threshold);
  }

  lemma RaisedBounds(threshold: real)
    requires Calibratable(threshold)
    ensures Calibratable(Raised(threshold))
    ensures Raised(threshold) == Min(MAX_ADAPTIVE_THRESHOLD, threshold + 0.05)
  {
    BoundsOnGrid();
    Ten000ths(RoundHalfEven(threshold * 10000.0) + 500);
  }

  /** Without scores to go by, a threshold goes down by four hundredths and as many for the
      share of splits, as far as the range allows. */
  lemma LoweredBlindly(threshold: real, splitRate: real)
    requires MIN_ADAPTIVE_THRESHOLD <= threshold <= MAX_ADAPTIVE_THRESHOLD && splitRate >= 0.0
    requires threshold - 0.08 * (1.0 + splitRate) >= MIN_ADAPTIVE_THRESHOLD
    ensures Lowered([], threshold, splitRate) == Round4(threshold - 0.04 * (1.0 + splitRate))
  {
    hide Round4;
  }

  // ---------- choice distributions ----------

  function Round6(x: real): real {
    RoundHalfEven(x * 1000000.0) as real / 1000000.0
  }

  /** Shares of the two responses and of a tie. */
  datatype Shares = Shares(responseA: real, responseB: real, tie: real)

  /** Non-negative scores as shares, to six decimals; the tie takes what is left. */
  function Normalized(weights: Shares): Shares {
    var a, b, tie := Max(0.0, weights.responseA), Max(0.0, weights.responseB), Max(0.0, weights.tie);
    var total := a + b + tie;
    if total <= 0.0 then
      var uniform := Round6(1.0 / 3.0);
      Shares(uniform, uniform, Round6(1.0 - 2.0 * uniform))
    else
      var roundedA, roundedB := Round6(a / total), Round6(b / total);
      Shares(roundedA, roundedB, Round6(Max(0.0, 1.0 - roundedA - roundedB)))
  }

  /** Rounding two shares of at most one in sum never pushes them past one: not even two
      halves can both be rounded up, since ties go to the even neighbour. */
  lemma TwoRounded(x: real, y: real, whole: int)
    requires x + y <= whole as real && whole % 2 == 0
    ensures RoundHalfEven(x) + RoundHalfEven(y) <= whole
  {
    var restX, restY := x - x.Floor as real, y - y.Floor as real;
    assert x.Floor + y.Floor <= whole;
    if x.Floor + y.Floor == whole - 1 {
      assert restX + restY <= 1.0;
      assert restX == 0.5 && restY == 0.5 ==> (x.Floor + y.Floor) % 2 == 1;
    } else if x.Floor + y.Floor == whole {
      assert restX == 0.0 && restY == 0.0;
    }
  }

  lemma Millionths(n: int)
    ensures Round6(n as real / 1000000.0) == n as real / 1000000.0
  {
    assert n as real / 1000000.0 * 1000000.0 == n as real;
    RoundWhole(n);
  }

  /** A normalized distribution sums to exactly one, in spite of rounding each share,
      and has no negative share. */
  lemma NormalizedSumsToOne(weights: Shares)
    ensures var p := Normalized(weights);
      && p.responseA + p.responseB + p.tie == 1.0
      && p.responseA >= 0.0 && p.responseB >= 0.0 && p.tie >= 0.0
  {
    hide RoundHalfEven;
    var a, b, tie := Max(0.0, weights.responseA), Max(0.0, weights.responseB), Max(0.0, weights.tie);
    var total := a + b + tie;
    if total <= 0.0 {
      ThirdRounded();
      Millionths(333334);
    } else {
      var x, y := a / total * 1000000.0, b / total * 1000000.0;
      SharesWithin(a, b, total);
      TwoRounded(x, y, 1000000);
      RoundMonotone(0.0, x);
      RoundMonotone(0.0, y);
      RoundWhole(0);
      Millionths(1000000 - RoundHalfEven(x) - RoundHalfEven(y));
    }
  }

  /** Each share is the true one to six decimals, the tie's with both rounding errors; without
      any weight the shares are thirds. */
  lemma NormalizedClose(weights: Shares)
    ensures var p, total := Normalized(weights),
                            Max(0.0, weights.responseA) + Max(0.0, weights.responseB) + Max(0.0, weights.tie);
      if total <= 0.0 then
        p == Shares(0.333333, 0.333333, 0.333334)
      else
        && -0.0000005 <= p.responseA - Max(0.0, weights.responseA) / total <= 0.0000005
        && -0.0000005 <= p.responseB - Max(0.0, weights.responseB) / total <= 0.0000005
        && -0.000001 <= p.tie - Max(0.0, weights.tie) / total <= 0.000001
  {
    hide RoundHalfEven;
    var a, b, tie := Max(0.0, weights.responseA), Max(0.0, weights.responseB), Max(0.0, weights.tie);
    var total := a + b + tie;
    NormalizedSumsToOne(weights);
    if total <= 0.0 {
      ThirdRounded();
      Millionths(333334);
    } else {
      Round6Within(a / total);
      Round6Within(b / total);
      SharesOfAll(a, b, tie, total);
    }
  }

  lemma Round6Within(x: real)
    ensures -0.0000005 <= Round6(x) - x <= 0.0000005
  {
    RoundWithin(x * 1000000.0);
  }

  lemma SharesOfAll(a: real, b: real, tie: real, total: real)
    requires a + b + tie == total && total > 0.0
    ensures a / total + b / total + tie / total == 1.0
  {
    var p, q, r := a / total, b / total, tie / total;
    assert p * total == a && q * total == b && r * total == tie;
    assert (p + q + r - 1.0) * total == 0.0;
  }

  lemma ThirdRounded()
    ensures Round6(1.0 / 3.0) == 0.333333
  {
    assert (1.0 / 3.0 * 1000000.0).Floor == 333333;
  }

  lemma SharesWithin(a: real, b: real, total: real)
    requires 0.0 <= a && 0.0 <= b && a + b <= total && 0.0 < total
    ensures 0.0 <= a / total && 0.0 <= b / total && a / total + b / total <= 1.0
  {
    var p, q := a / total, b / total;
    assert p * total == a && q * total == b;
    assert p < 0.0 ==> p * total < 0.0;
    assert q < 0.0 ==> q * total < 0.0;
    assert p + q > 1.0 ==> (p + q - 1.0) * total > 0.0;
  }
}
