/** Annotator skill weights of apps/tasks/calibration.py: how answers to gold
    tasks turn into the weights that consensus uses. */
module Calibration {
  import opened Arithmetic
  import opened Wrappers

  const MIN_WEIGHT := 0.10
  const MAX_WEIGHT := 1.50

  // ---------- the weight of a record ----------

  function SafeCorrect(correct: int, evaluated: int): int {
    MaxInt(0, MinInt(correct, evaluated))
  }

  /** The share of right answers. */
  function AccuracyRate(correct: int, evaluated: int): real {
    if evaluated <= 0 then 1.0 else Round4(SafeCorrect(correct, evaluated) as real / evaluated as real)
  }

  /** The weight before clamping and rounding: a Beta(0.5, 0.5) prior's posterior
      mean, scaled to the range of weights. */
  function ExactWeight(correct: int, evaluated: int): real
    requires evaluated > 0
  {
    0.10 + 1.40 * ((correct as real + 0.5) / (evaluated as real + 1.0))
  }

  function Clamped(x: real): real {
    Max(MIN_WEIGHT, Min(MAX_WEIGHT, x))
  }

  function SkillWeight(correct: int, evaluated: int): real {
    if evaluated <= 0 then 1.0 else Round4(Clamped(ExactWeight(SafeCorrect(correct, evaluated), evaluated)))
  }

  lemma ClampedWeight(x: real)
    ensures MIN_WEIGHT <= Round4(Clamped(x)) <= MAX_WEIGHT && OnGrid(Round4(Clamped(x)))
  {
    hide Round4;
    Ten000ths(1000);
    Ten000ths(15000);
    Round4Monotone(MIN_WEIGHT, Clamped(x));
    Round4Monotone(Clamped(x), MAX_WEIGHT);
    Round4OnGrid(Clamped(x));
  }

  /** Skill weights are grid values in [0.10, 1.50], for any counts. */
  lemma WeightBounds(correct: int, evaluated: int)
    ensures MIN_WEIGHT <= SkillWeight(correct, evaluated) <= MAX_WEIGHT
    ensures OnGrid(SkillWeight(correct, evaluated))
  {
    hide Round4;
    if evaluated <= 0 {
      Ten000ths(10000);
    } else {
      ClampedWeight(ExactWeight(SafeCorrect(correct, evaluated), evaluated));
    }
  }

  /** Among equally many answers, more right ones never lower the weight; and for
      counts that make sense the clamp is never needed. */
  lemma WeightMonotone(low: int, high: int, evaluated: int)
    requires low <= high
    ensures SkillWeight(low, evaluated) <= SkillWeight(high, evaluated)
    ensures 0 <= low <= evaluated && evaluated > 0 ==>
              MIN_WEIGHT < ExactWeight(low, evaluated) < MAX_WEIGHT
              && SkillWeight(low, evaluated) == Round4(ExactWeight(low, evaluated))
  {
    hide Round4;
    if evaluated > 0 {
      var a, b := SafeCorrect(low, evaluated), SafeCorrect(high, evaluated);
      var n := evaluated as real + 1.0;
      QuotientMonotone(a as real + 0.5, b as real + 0.5, n);
      assert ExactWeight(a, evaluated) <= ExactWeight(b, evaluated);
      Round4Monotone(Clamped(ExactWeight(a, evaluated)), Clamped(ExactWeight(b, evaluated)));
    }
  }

  lemma QuotientMonotone(a: real, b: real, n: real)
    requires 0.0 < a <= b < n
    ensures 0.0 < a / n <= b / n < 1.0
  {
    var q := b / n;
    assert q * n == b;
    assert q >= 1.0 ==> q * n >= n;
  }

  /** One more right answer among equally many adds exactly 1.40 over one more than their
      number, so up to 13998 answers it always raises the rounded weight as well; right and
      wrong answers mirror each other around 0.80. */
  lemma WeightGrows(correct: nat, evaluated: nat)
    requires correct < evaluated
    ensures ExactWeight(correct + 1, evaluated) - ExactWeight(correct, evaluated) == 1.40 / (evaluated as real + 1.0)
    ensures evaluated <= 13998 ==> SkillWeight(correct, evaluated) < SkillWeight(correct + 1, evaluated)
    ensures ExactWeight(correct, evaluated) + ExactWeight(evaluated - correct, evaluated) == 1.60
  {
    hide Round4, ExactWeight;
    GapOfWeights(correct, evaluated);
    WeightMonotone(correct, correct + 1, evaluated);
    WeightMonotone(correct + 1, correct + 1, evaluated);
    var gap := 1.40 / (evaluated as real + 1.0);
    assert gap * (evaluated as real + 1.0) == 1.40;
    if evaluated <= 13998 {
      GapIsLarge(gap, evaluated as real + 1.0);
      Round4Within(ExactWeight(correct, evaluated));
      Round4Within(ExactWeight(correct + 1, evaluated));
    }
  }

  lemma GapIsLarge(gap: real, n: real)
    requires 0.0 < n <= 13999.0 && gap * n == 1.40
    ensures gap > 0.0001
  {
    assert (0.0001 - gap) * n == 0.0001 * n - 1.40;
    assert 0.0001 >= gap ==> (0.0001 - gap) * n >= 0.0;
  }

  lemma GapOfWeights(correct: nat, evaluated: nat)
    requires correct < evaluated
    ensures ExactWeight(correct + 1, evaluated) - ExactWeight(correct, evaluated) == 1.40 / (evaluated as real + 1.0)
    ensures ExactWeight(correct, evaluated) + ExactWeight(evaluated - correct, evaluated) == 1.60
  {
    var n := evaluated as real + 1.0;
    Quotients(correct as real + 0.5, 1.0, n);
    Quotients(correct as real + 0.5, (evaluated - correct) as real + 0.5, n);
    assert (correct + 1) as real + 0.5 == (correct as real + 0.5) + 1.0;
    assert (correct as real + 0.5) + ((evaluated - correct) as real + 0.5) == n;
  }

  lemma Quotients(a: real, b: real, n: real)
    requires n > 0.0
    ensures (a + b) / n == a / n + b / n
  {
  }

  /** The reported accuracy is the share of right answers to four decimals, one without
      any answer, and never falls with more right ones. */
  lemma AccuracyExact(correct: nat, more: nat, evaluated: nat)
    requires correct <= more <= evaluated
    ensures evaluated == 0 ==> AccuracyRate(correct, evaluated) == 1.0
    ensures evaluated > 0 ==>
              && -0.00005 <= AccuracyRate(correct, evaluated) - correct as real / evaluated as real <= 0.00005
              && OnGrid(AccuracyRate(correct, evaluated))
              && AccuracyRate(correct, evaluated) <= AccuracyRate(more, evaluated)
              && AccuracyRate(0, evaluated) == 0.0 && AccuracyRate(evaluated, evaluated) == 1.0
  {
    hide Round4, OnGrid;
    if evaluated > 0 {
      var n := evaluated as real;
      ShareBounds(correct as real, more as real, n);
      Round4Within(correct as real / n);
      Round4OnGrid(correct as real / n);
      Round4Monotone(correct as real / n, more as real / n);
      Whole(n);
    }
  }

  lemma ShareBounds(a: real, b: real, n: real)
    requires a <= b && n > 0.0
    ensures a / n <= b / n
  {
    var p, q := a / n, b / n;
    assert p * n == a && q * n == b;
    assert p > q ==> (p - q) * n > 0.0;
  }

  lemma Whole(n: real)
    requires n > 0.0
    ensures Round4(0.0 / n) == 0.0 && Round4(n / n) == 1.0
  {
    Ten000ths(0);
    Ten000ths(10000);
    assert 0.0 / n == 0.0 && n / n == 1.0;
  }

  /** The values that the source gives as examples. */
  lemma DocumentedWeights()
    ensures SkillWeight(1, 1) == 1.15 && SkillWeight(4, 4) == 1.36
    ensures SkillWeight(0, 1) == 0.45 && SkillWeight(0, 4) == 0.24
  {
    Ten000ths(11500);
    Ten000ths(13600);
    Ten000ths(4500);
    Ten000ths(2400);
    assert ExactWeight(1, 1) == 1.15 && ExactWeight(4, 4) == 1.36;
    assert ExactWeight(0, 1) == 0.45 && ExactWeight(0, 4) == 0.24;
  }

  // ---------- an annotator's record ----------

  datatype Vector = Vector(evaluated: nat, correct: nat, accuracy: real, weight: real)

  datatype Record = Record(
    evaluated: nat, correct: nat, accuracy: real, weight: real, languages: map<string, Vector>,
    domains: map<string, Vector>)

  function VectorOf(evaluated: nat, correct: nat): Vector {
    Vector(evaluated, correct, AccuracyRate(correct, evaluated), SkillWeight(correct, evaluated))
  }

  const NEW_RECORD := Record(0, 0, 1.0, 1.0, map[], map[])

  /** An answer to a gold task. */
  datatype Gold = Gold(domain: string, language: string, isCorrect: bool)

  function UpdatedVectors(vectors: map<string, Vector>, key: string, isCorrect: bool): map<string, Vector> {
    if key == "" then vectors
    else
      var evaluated := (if key in vectors then vectors[key].evaluated else 0) + 1;
      var correct := (if key in vectors then vectors[key].correct else 0) + if isCorrect then 1 else 0;
      vectors[key := VectorOf(evaluated, correct)]
  }

  function AfterGold(r: Record, gold: Gold): Record {
    var evaluated, correct := r.evaluated + 1, r.correct + if gold.isCorrect then 1 else 0;
    Record(evaluated, correct, AccuracyRate(correct, evaluated), SkillWeight(correct, evaluated),
      UpdatedVectors(r.languages, gold.language, gold.isCorrect),
      UpdatedVectors(r.domains, gold.domain, gold.isCorrect))
  }

  class AnnotatorCalibration {
    var evaluated: nat
    var correct: nat
    var accuracy: real
    var weight: real
    var languages: map<string, Vector>
    var domains: map<string, Vector>

    function Value(): Record
      reads this
    {
      Record(evaluated, correct, accuracy, weight, languages, domains)
    }

    constructor ()
      ensures Value() == NEW_RECORD
    {
      evaluated, correct, accuracy, weight, languages, domains := 0, 0, 1.0, 1.0, map[], map[];
    }

    /** The calibration part of scoring a gold submission. */
    method EvaluateGold(gold: Gold)
      modifies this
      ensures Value() == AfterGold(old(Value()), gold)
    {
      evaluated := evaluated + 1;
      if gold.isCorrect {
        correct := correct + 1;
      }
      accuracy, weight := AccuracyRate(correct, evaluated), SkillWeight(correct, evaluated);
      languages := UpdatedVectors(languages, gold.language, gold.isCorrect);
      domains := UpdatedVectors(domains, gold.domain, gold.isCorrect);
    }
  }

  /** The record after a history of gold answers. */
  function Earned(history: seq<Gold>): Record {
    if history == [] then NEW_RECORD else AfterGold(Earned(history[..|history| - 1]), history[|history| - 1])
  }

  /** Answers of a history that count for a key, and right ones among them. */
  datatype Scope = Everything | InDomain(domain: string) | InLanguage(language: string)

  predicate Counts(gold: Gold, scope: Scope) {
    match scope
    case Everything => true
    case InDomain(domain) => gold.domain == domain
    case InLanguage(language) => gold.language == language
  }

  function Answers(history: seq<Gold>, scope: Scope, onlyCorrect: bool): nat {
    if history == [] then 0
    else
      var last := history[|history| - 1];
      Answers(history[..|history| - 1], scope, onlyCorrect)
      + if Counts(last, scope) && (onlyCorrect ==> last.isCorrect) then 1 else 0
  }

  /** The vectors report `correct` right answers out of `evaluated` for a key. */
  ghost predicate Reports(vectors: map<string, Vector>, key: string, evaluated: nat, correct: nat) {
    if evaluated == 0 then key !in vectors && correct == 0
    else key in vectors && vectors[key] == VectorOf(evaluated, correct)
  }

  lemma UpdateReports(
    vectors: map<string, Vector>, updated: string, isCorrect: bool, key: string, evaluated: nat, correct: nat)
    requires key != "" && Reports(vectors, key, evaluated, correct)
    ensures Reports(UpdatedVectors(vectors, updated, isCorrect), key,
              evaluated + (if updated == key then 1 else 0),
              correct + (if updated == key && isCorrect then 1 else 0))
    ensures "" !in vectors ==> "" !in UpdatedVectors(vectors, updated, isCorrect)
  {
    hide SkillWeight, AccuracyRate;
  }

  /** A record says exactly what its history says: for the annotator as a whole and
      for every domain and language, how many gold answers there were, how many of
      them were right, and the weight of these counts.  So the order of the answers
      does not matter. */
  lemma {:induction false} RecordReportsHistory(history: seq<Gold>, key: string)
    requires key != ""
    ensures var r := Earned(history);
      && r.evaluated == |history| && r.correct == Answers(history, Everything, true)
      && r.weight == SkillWeight(r.correct, r.evaluated) && r.accuracy == AccuracyRate(r.correct, r.evaluated)
      && Reports(r.domains, key, Answers(history, InDomain(key), false), Answers(history, InDomain(key), true))
      && Reports(r.languages, key, Answers(history, InLanguage(key), false), Answers(history, InLanguage(key), true))
      && "" !in r.domains && "" !in r.languages
  {
    hide SkillWeight, AccuracyRate, Reports, UpdatedVectors;
    if history == [] {
      EmptyRecord(key);
    } else {
      var before, last := history[..|history| - 1], history[|history| - 1];
      RecordReportsHistory(before, key);
      UpdateReports(Earned(before).domains, last.domain, last.isCorrect, key,
        Answers(before, InDomain(key), false), Answers(before, InDomain(key), true));
      UpdateReports(Earned(before).languages, last.language, last.isCorrect, key,
        Answers(before, InLanguage(key), false), Answers(before, InLanguage(key), true));
    }
  }

  lemma EmptyRecord(key: string)
    ensures SkillWeight(0, 0) == 1.0 && AccuracyRate(0, 0) == 1.0 && Reports(map[], key, 0, 0)
  {
  }

  // ---------- the weight used for consensus ----------

  function SpecialistWeights(r: Record, domain: string, language: string): seq<real> {
    (if domain != "general" && domain in r.domains && r.domains[domain].evaluated > 0
     then [r.domains[domain].weight] else [])
    + (if language != "en" && language in r.languages && r.languages[language].evaluated > 0
       then [r.languages[language].weight] else [])
  }

  function Sum(xs: seq<real>): real {
    if xs == [] then 0.0 else xs[0] + Sum(xs[1..])
  }

  function EffectiveSkillWeight(record: Option<Record>, domain: string, language: string): real {
    if record.None? || record.value.evaluated == 0 then 1.0
    else
      var base, matched := record.value.weight, SpecialistWeights(record.value, domain, language);
      if matched == [] then Round4(base)
      else
        var mean := Sum(matched) / |matched| as real;
        Round4(Max(0.10, Min(1.50, 0.70 * mean + 0.30 * base)))
  }

  /** Whatever an annotator has answered so far, and for any task, the weight that
      consensus uses is in [0.10, 1.50]; without a matching specialist record it is
      the overall weight. */
  lemma EffectiveWeightBounds(history: seq<Gold>, domain: string, language: string)
    ensures var r := Earned(history); var w := EffectiveSkillWeight(Some(r), domain, language);
      && MIN_WEIGHT <= w <= MAX_WEIGHT
      && (SpecialistWeights(r, domain, language) == [] ==> w == r.weight)
  {
    hide Round4, Earned, Answers, AccuracyRate, ExactWeight;
    var r := Earned(history);
    RecordReportsHistory(history, if domain == "" then "general" else domain);
    WeightBounds(r.correct, r.evaluated);
    var matched := SpecialistWeights(r, domain, language);
    if matched != [] {
      ClampedWeight(0.70 * (Sum(matched) / |matched| as real) + 0.30 * r.weight);
    }
  }

  /** A specialist record blends: the weight lies between the smallest and the largest
      of the weights that go into it, up to rounding. */
  lemma EffectiveWeightBlends(r: Record, domain: string, language: string, low: real, high: real)
    requires MIN_WEIGHT <= low <= r.weight <= high <= MAX_WEIGHT && r.evaluated > 0
    requires forall w :: w in SpecialistWeights(r, domain, language) ==> low <= w <= high
    ensures low - 0.00005 <= EffectiveSkillWeight(Some(r), domain, language) <= high + 0.00005
  {
    hide Round4;
    var matched := SpecialistWeights(r, domain, language);
    if matched == [] {
      Round4Within(r.weight);
    } else {
      assert matched[0] in matched && matched[|matched| - 1] in matched;
      MeanOfTwo(matched);
      var mean := Sum(matched) / |matched| as real;
      assert low <= mean <= high;
      Round4Within(0.70 * mean + 0.30 * r.weight);
    }
  }

  /** The weight for a task, by the gold answers that an annotator has given: the weight of
      all answers alone, unless the task's domain is a special one with answers of its own,
      or its language is; then three tenths of it and seven of theirs, in equal parts if
      both are. */
  lemma EffectiveWeightExact(history: seq<Gold>, domain: string, language: string)
    requires domain != "" && language != ""
    ensures var count := (scope, right) => Answers(history, scope, right);
      var inDomain := domain != "general" && count(InDomain(domain), false) > 0;
      var inLanguage := language != "en" && count(InLanguage(language), false) > 0;
      var base := SkillWeight(count(Everything, true), |history|);
      var ofDomain := SkillWeight(count(InDomain(domain), true), count(InDomain(domain), false));
      var ofLanguage := SkillWeight(count(InLanguage(language), true), count(InLanguage(language), false));
      EffectiveSkillWeight(Some(Earned(history)), domain, language) ==
        if inDomain && inLanguage then Round4(0.35 * ofDomain + 0.35 * ofLanguage + 0.30 * base)
        else if inDomain then Round4(0.70 * ofDomain + 0.30 * base)
        else if inLanguage then Round4(0.70 * ofLanguage + 0.30 * base)
        else base
  {
    hide Round4, Earned, Answers, AccuracyRate, SkillWeight, EffectiveSkillWeight;
    var r := Earned(history);
    RecordReportsHistory(history, domain);
    RecordReportsHistory(history, language);
    WeightBounds(r.correct, r.evaluated);
    EmptyRecord("");
    if history == [] {
      NoAnswers(Everything);
      NoAnswers(InDomain(domain));
      NoAnswers(InLanguage(language));
      Unanswered(r, domain, language);
    } else {
      BlendedWithin(Answers(history, InDomain(domain), true), Answers(history, InDomain(domain), false));
      BlendedWithin(Answers(history, InLanguage(language), true), Answers(history, InLanguage(language), false));
      Blended(r, domain, language);
    }
  }

  lemma SumOfOneOrTwo(x: real, y: real)
    ensures Sum([x]) == x && Sum([x] + [y]) == x + y
  {
    assert [x][1..] == [] && ([x] + [y])[1..] == [y] && [y][1..] == [];
  }

  lemma Unanswered(r: Record, domain: string, language: string)
    requires r.evaluated == 0
    ensures EffectiveSkillWeight(Some(r), domain, language) == 1.0
  {
  }

  /** How a record with answers blends its vectors. */
  lemma Blended(r: Record, domain: string, language: string)
    requires r.evaluated > 0 && 0.10 <= r.weight <= 1.50
    requires domain in r.domains ==> 0.10 <= r.domains[domain].weight <= 1.50
    requires language in r.languages ==> 0.10 <= r.languages[language].weight <= 1.50
    ensures var inDomain := domain != "general" && domain in r.domains && r.domains[domain].evaluated > 0;
      var inLanguage := language != "en" && language in r.languages && r.languages[language].evaluated > 0;
      EffectiveSkillWeight(Some(r), domain, language) == Round4(
        if inDomain && inLanguage
        then 0.35 * r.domains[domain].weight + 0.35 * r.languages[language].weight + 0.30 * r.weight
        else if inDomain then 0.70 * r.domains[domain].weight + 0.30 * r.weight
        else if inLanguage then 0.70 * r.languages[language].weight + 0.30 * r.weight
        else r.weight)
  {
    hide Round4;
    var matched := SpecialistWeights(r, domain, language);
    if |matched| == 2 {
      SumOfOneOrTwo(matched[0], matched[1]);
    } else if |matched| == 1 {
      SumOfOneOrTwo(matched[0], 0.0);
      assert matched == [matched[0]];
    }
  }

  lemma BlendedWithin(correct: int, evaluated: int)
    ensures 0.10 <= SkillWeight(correct, evaluated) <= 1.50
  {
    WeightBounds(correct, evaluated);
  }

  lemma NoAnswers(scope: Scope)
    ensures Answers([], scope, true) == 0 == Answers([], scope, false)
  {
  }

  lemma MeanOfTwo(xs: seq<real>)
    requires 1 <= |xs| <= 2
    ensures Sum(xs) / |xs| as real == (xs[0] + xs[|xs| - 1]) / 2.0
  {
    if |xs| == 2 {
      assert Sum(xs[1..]) == xs[1];
    }
  }
}
