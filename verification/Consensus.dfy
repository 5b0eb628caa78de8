/** Skill-weighted consensus on a task: `evaluate_task_consensus` in
    apps/tasks/consensus.py. */
module Consensus {
  import opened Arithmetic
  import opened Calibration
  import opened Sequences
  import opened Wrappers

  datatype Annotation = Annotation(annotator: string, preference: string, language: string)

  /** One annotation's answer and the weight of its annotator. */
  datatype Vote = Vote(answer: string, weight: real)

  /** The votes of a task's annotations.  `records` are the organization's annotators
      with at least one gold answer. */
  function Votes(annotations: seq<Annotation>, records: map<string, Record>, domain: string): (votes: seq<Vote>)
    ensures |votes| == |annotations|
    ensures forall i :: 0 <= i < |votes| ==> votes[i] == VoteOf(annotations[i], records, domain)
  {
    seq(|annotations|, i requires 0 <= i < |annotations| => VoteOf(annotations[i], records, domain))
  }

  function VoteOf(a: Annotation, records: map<string, Record>, domain: string): Vote {
    var record := if a.annotator in records then Some(records[a.annotator]) else None;
    Vote(a.preference, EffectiveSkillWeight(record, domain, a.language))
  }

  // ---------- weights of answers ----------

  /** The votes for one answer, or all of them. */
  datatype Choice = Anything | Answer(answer: string)

  predicate For(vote: Vote, choice: Choice) {
    choice.Answer? ==> vote.answer == choice.answer
  }

  /** The total weight of the votes for a choice. */
  function Weight(votes: seq<Vote>, choice: Choice): real {
    if votes == [] then 0.0
    else
      var last := votes[|votes| - 1];
      Weight(votes[..|votes| - 1], choice) + if For(last, choice) then last.weight else 0.0
  }

  ghost predicate Weighted(votes: seq<Vote>) {
    forall i :: 0 <= i < |votes| ==> MIN_WEIGHT <= votes[i].weight <= MAX_WEIGHT
  }

  ghost predicate Voted(votes: seq<Vote>, answer: string) {
    exists i :: 0 <= i < |votes| && votes[i].answer == answer
  }

  lemma WeightNext(votes: seq<Vote>, i: nat, choice: Choice)
    requires i < |votes|
    ensures Weight(votes[..i + 1], choice) ==
            Weight(votes[..i], choice) + if For(votes[i], choice) then votes[i].weight else 0.0
  {
    assert votes[..i + 1][..i] == votes[..i];
  }

  /** Weights are non-negative, a answer with a vote weighs at least the least weight,
      and two different answers together never weigh more than all votes. */
  lemma {:induction false} WeightFacts(votes: seq<Vote>, answer: string, other: string)
    requires Weighted(votes)
    ensures 0.0 <= Weight(votes, Answer(answer))
    ensures Weight(votes, Anything) >= MIN_WEIGHT * |votes| as real
    ensures answer != other ==> Weight(votes, Answer(answer)) + Weight(votes, Answer(other)) <= Weight(votes, Anything)
    ensures !Voted(votes, answer) ==> Weight(votes, Answer(answer)) == 0.0
    ensures Voted(votes, answer) ==> Weight(votes, Answer(answer)) >= MIN_WEIGHT
  {
    if votes != [] {
      var init, last := votes[..|votes| - 1], votes[|votes| - 1];
      assert Weighted(init);
      WeightFacts(init, answer, other);
      VotedNext(votes, answer);
    }
  }

  lemma VotedNext(votes: seq<Vote>, answer: string)
    requires votes != []
    ensures Voted(votes, answer) <==> Voted(votes[..|votes| - 1], answer) || votes[|votes| - 1].answer == answer
  {
    var init := votes[..|votes| - 1];
    if Voted(votes, answer) {
      var i :| 0 <= i < |votes| && votes[i].answer == answer;
      assert i < |init| ==> init[i].answer == answer;
    }
    if Voted(init, answer) {
      var i :| 0 <= i < |init| && init[i].answer == answer;
      assert votes[i].answer == answer;
    }
  }

  // ---------- the outcome ----------

  /** What the evaluation decides: the score is the share of a heaviest answer. */
  datatype Outcome = Outcome(score: real, reached: bool, awaiting: bool, choice: string)

  /** An answer's share of the total weight, to four decimals. */
  function Share(votes: seq<Vote>, answer: string): real {
    var total := Weight(votes, Anything);
    if total > 0.0 then Round4(Weight(votes, Answer(answer)) / total) else 0.0
  }

  ghost predicate Heaviest(votes: seq<Vote>, answer: string) {
    Voted(votes, answer) && forall other :: Weight(votes, Answer(other)) <= Weight(votes, Answer(answer))
  }

  /** More than half of the total weight, after the rounding of the score. */
  ghost predicate Majority(votes: seq<Vote>, answer: string) {
    Weight(votes, Answer(answer)) > 0.50005 * Weight(votes, Anything)
  }

  /** The meaning of an outcome, without reference to the order of the votes or to how
      a leader is found. */
  ghost predicate IsOutcome(votes: seq<Vote>, required: nat, o: Outcome) {
    && votes != []
    && (exists answer :: Heaviest(votes, answer) && o.score == Share(votes, answer))
    && (o.reached <==> |votes| >= required && exists answer :: Majority(votes, answer))
    && (o.awaiting <==> |votes| >= required && !o.reached)
    && (if o.reached then Majority(votes, o.choice) else o.choice == "")
  }

  /** A majority answer is the only one, it has votes, it is the heaviest by more than
      the tie margin, and its rounded share is above one half; and conversely a rounded
      share above one half is a majority. */
  lemma MajorityFacts(votes: seq<Vote>, answer: string)
    requires Weighted(votes) && votes != []
    ensures Majority(votes, answer) <==> Share(votes, answer) > 0.5
    ensures Majority(votes, answer) ==>
              && Voted(votes, answer)
              && Weight(votes, Answer(answer)) > Weight(votes, Anything) / 2.0
              && forall other :: other != answer ==>
                   Weight(votes, Answer(answer)) - Weight(votes, Answer(other)) > 0.000001 && !Majority(votes, other)
  {
    hide Weight, Round4, Voted, Weighted;
    WeightFacts(votes, answer, answer);
    var total, mine := Weight(votes, Anything), Weight(votes, Answer(answer));
    assert total >= 0.10;
    RoundedHalf(mine, total);
    forall other | other != answer && Majority(votes, answer)
      ensures mine - Weight(votes, Answer(other)) > 0.000001 && !Majority(votes, other)
    {
      WeightFacts(votes, answer, other);
    }
  }

  lemma RoundedHalf(part: real, total: real)
    requires total > 0.0
    ensures Round4(part / total) > 0.5 <==> part > 0.50005 * total
  {
    var share := part / total;
    assert share * total == part;
    if share > 0.50005 {
      assert (share - 0.50005) * total > 0.0;
    } else {
      assert (0.50005 - share) * total >= 0.0;
    }
    var x := share * 10000.0;
    if share > 0.50005 {
      assert x > 5000.5;
      assert RoundHalfEven(x) >= 5001;
    } else {
      assert x <= 5000.5;
      RoundMonotone(x, 5000.5);
      assert RoundHalfEven(5000.5) == 5000 by {
        assert 5000.5.Floor == 5000;
      }
    }
  }

  // ---------- independence of order ----------

  lemma {:induction false} WeightConcat(a: seq<Vote>, b: seq<Vote>, choice: Choice)
    ensures Weight(a + b, choice) == Weight(a, choice) + Weight(b, choice)
  {
    if b == [] {
      assert a + b == a;
    } else {
      WeightConcat(a, b[..|b| - 1], choice);
      assert (a + b)[..|a + b| - 1] == a + b[..|b| - 1];
    }
  }

  lemma WeightWithout(votes: seq<Vote>, i: nat, choice: Choice)
    requires i < |votes|
    ensures Weight(votes, choice) ==
            Weight(votes[..i] + votes[i + 1..], choice) + if For(votes[i], choice) then votes[i].weight else 0.0
  {
    hide Weight;
    assert votes == votes[..i + 1] + votes[i + 1..];
    WeightConcat(votes[..i + 1], votes[i + 1..], choice);
    WeightConcat(votes[..i], votes[i + 1..], choice);
    WeightNext(votes, i, choice);
  }

  lemma {:induction false} WeightIgnoresOrder(a: seq<Vote>, b: seq<Vote>, choice: Choice)
    requires multiset(a) == multiset(b)
    ensures Weight(a, choice) == Weight(b, choice) && |a| == |b|
  {
    hide Weight;
    assert |multiset(a)| == |a| && |multiset(b)| == |b|;
    if a != [] {
      DropLast(a);
      var i := Find(b, a[|a| - 1]);
      WeightWithout(b, i, choice);
      assert a[..|a|] == a;
      WeightNext(a, |a| - 1, choice);
      WeightIgnoresOrder(a[..|a| - 1], b[..i] + b[i + 1..], choice);
    } else {
      assert b == [];
    }
  }

  /** The outcome is determined by the votes, in any order: decision, answer and score
      of two evaluations agree if the votes are the same up to permutation. */
  lemma OutcomeIgnoresOrder(a: seq<Vote>, b: seq<Vote>, required: nat, o: Outcome, p: Outcome)
    requires multiset(a) == multiset(b) && Weighted(a)
    requires IsOutcome(a, required, o) && IsOutcome(b, required, p)
    ensures o == p
  {
    hide Weight, Round4, Voted, Weighted;
    forall choice ensures Weight(a, choice) == Weight(b, choice) && |a| == |b| {
      WeightIgnoresOrder(a, b, choice);
    }
    var la :| Heaviest(a, la) && o.score == Share(a, la);
    var lb :| Heaviest(b, lb) && p.score == Share(b, lb);
    assert Weight(a, Answer(la)) == Weight(a, Answer(lb));
    assert forall answer :: Majority(a, answer) <==> Majority(b, answer);
    if o.reached {
      MajorityFacts(a, o.choice);
    }
  }

  /** The order in which annotations came does not matter either: permuted
      annotations make permuted votes. */
  lemma {:induction false} VotesIgnoreOrder(
    a: seq<Annotation>, b: seq<Annotation>, records: map<string, Record>, domain: string)
    requires multiset(a) == multiset(b)
    ensures multiset(Votes(a, records, domain)) == multiset(Votes(b, records, domain))
  {
    hide Votes;
    assert |multiset(a)| == |a| && |multiset(b)| == |b|;
    if a != [] {
      var init, last := a[..|a| - 1], a[|a| - 1];
      DropLast(a);
      var i := Find(b, last);
      VotesIgnoreOrder(init, b[..i] + b[i + 1..], records, domain);
      VotesOfParts(init, [last], [], records, domain);
      assert init + [] == init;
      VotesOfParts(b[..i], [last], b[i + 1..], records, domain);
    } else {
      assert b == [];
    }
  }

  lemma VotesOfParts(
    x: seq<Annotation>, y: seq<Annotation>, z: seq<Annotation>, records: map<string, Record>, domain: string)
    ensures multiset(Votes(x + y + z, records, domain))
         == multiset(Votes(x + z, records, domain)) + multiset(Votes(y, records, domain))
  {
    hide VoteOf;
    assert Votes(x + y + z, records, domain)
        == Votes(x, records, domain) + Votes(y, records, domain) + Votes(z, records, domain);
    assert Votes(x + z, records, domain) == Votes(x, records, domain) + Votes(z, records, domain);
  }

  function EarnedRecords(histories: map<string, seq<Gold>>): map<string, Record> {
    map name | name in histories :: Earned(histories[name])
  }

  /** Votes weigh between 0.10 and 1.50 when every record was earned by gold answers. */
  lemma EarnedVotesWeighted(annotations: seq<Annotation>, histories: map<string, seq<Gold>>, domain: string)
    ensures Weighted(Votes(annotations, EarnedRecords(histories), domain))
  {
    hide EffectiveSkillWeight, Earned;
    var records := EarnedRecords(histories);
    var votes := Votes(annotations, records, domain);
    forall i | 0 <= i < |votes| ensures MIN_WEIGHT <= votes[i].weight <= MAX_WEIGHT
    {
      if annotations[i].annotator in records {
        EffectiveWeightBounds(histories[annotations[i].annotator], domain, annotations[i].language);
      } else {
        NeutralWeight(domain, annotations[i].language);
      }
    }
  }

  lemma NeutralWeight(domain: string, language: string)
    ensures EffectiveSkillWeight(None, domain, language) == 1.0
  {
  }

  // ---------- the evaluation ----------

  /** `totals` holds the weight of every answer that has votes. */
  ghost predicate Tallied(votes: seq<Vote>, totals: map<string, real>, order: seq<string>) {
    && Distinct(order)
    && (forall answer :: answer in order <==> answer in totals)
    && (forall answer :: answer in totals <==> Voted(votes, answer))
    && (forall answer :: answer in totals ==> totals[answer] == Weight(votes, Answer(answer)))
  }

  /** How many votes an answer has. */
  function VoteCount(votes: seq<Vote>, answer: string): nat {
    if votes == [] then 0
    else VoteCount(votes[..|votes| - 1], answer) + if votes[|votes| - 1].answer == answer then 1 else 0
  }

  /** `counts` holds the number of votes of every answer that has any. */
  ghost predicate Counted(votes: seq<Vote>, counts: map<string, nat>) {
    forall answer :: VoteCount(votes, answer) == if answer in counts then counts[answer] else 0
  }

  lemma CountedNext(votes: seq<Vote>, i: nat, counts: map<string, nat>)
    requires i < |votes| && Counted(votes[..i], counts)
    ensures var v := votes[i];
      Counted(votes[..i + 1], counts[v.answer := (if v.answer in counts then counts[v.answer] else 0) + 1])
  {
    assert votes[..i + 1][..i] == votes[..i];
  }

  lemma TalliedNext(votes: seq<Vote>, i: nat, totals: map<string, real>, order: seq<string>)
    requires i < |votes| && Tallied(votes[..i], totals, order)
    ensures var v := votes[i];
      Tallied(votes[..i + 1],
        totals[v.answer := (if v.answer in totals then totals[v.answer] else 0.0) + v.weight],
        if v.answer in totals then order else order + [v.answer])
  {
    hide Weight, Voted;
    var v := votes[i];
    assert votes[..i + 1][..i] == votes[..i];
    forall answer ensures Voted(votes[..i + 1], answer) <==> Voted(votes[..i], answer) || v.answer == answer {
      VotedNext(votes[..i + 1], answer);
    }
    forall answer ensures Weight(votes[..i + 1], Answer(answer)) ==
                          Weight(votes[..i], Answer(answer)) + if v.answer == answer then v.weight else 0.0 {
      WeightNext(votes, i, Answer(answer));
    }
    if v.answer !in totals {
      UnvotedWeight(votes[..i], v.answer);
    }
  }

  lemma {:induction false} UnvotedWeight(votes: seq<Vote>, answer: string)
    requires !Voted(votes, answer)
    ensures Weight(votes, Answer(answer)) == 0.0
  {
    if votes != [] {
      VotedNext(votes, answer);
      UnvotedWeight(votes[..|votes| - 1], answer);
    }
  }

  /** The sum of the weights of some answers. */
  function SumOf(votes: seq<Vote>, answers: seq<string>): real {
    if answers == [] then 0.0
    else SumOf(votes, answers[..|answers| - 1]) + Weight(votes, Answer(answers[|answers| - 1]))
  }

  lemma {:induction false} SumAdds(votes: seq<Vote>, answers: seq<string>)
    requires votes != [] && Distinct(answers)
    ensures var last := votes[|votes| - 1];
      SumOf(votes, answers) ==
      SumOf(votes[..|votes| - 1], answers) + if last.answer in answers then last.weight else 0.0
  {
    if answers != [] {
      var n := |answers| - 1;
      SumAdds(votes, answers[..n]);
      assert forall answer :: answer in answers <==> answer in answers[..n] || answer == answers[n];
    }
  }

  lemma {:induction false} NoVotesNoSum(answers: seq<string>)
    ensures SumOf([], answers) == 0.0
  {
    if answers != [] {
      NoVotesNoSum(answers[..|answers| - 1]);
    }
  }

  /** Summing over the answers gives the weight of all votes. */
  lemma {:induction false} SumIsTotal(votes: seq<Vote>, answers: seq<string>)
    requires Distinct(answers) && forall answer :: Voted(votes, answer) ==> answer in answers
    ensures SumOf(votes, answers) == Weight(votes, Anything)
  {
    hide SumOf;
    if votes == [] {
      NoVotesNoSum(answers);
    } else {
      forall answer ensures Voted(votes[..|votes| - 1], answer) ==> answer in answers {
        VotedNext(votes, answer);
      }
      SumIsTotal(votes[..|votes| - 1], answers);
      SumAdds(votes, answers);
      VotedNext(votes, votes[|votes| - 1].answer);
    }
  }

  /** The columns of a task that the evaluation reads or writes. */
  class Task {
    const required: nat
    const isGold: bool
    var status: string
    var difficulty: string
    var autoEscalated: bool
    var claimedBy: Option<string>
    var consensusScore: Option<real>
    var consensusChoice: string

    constructor (required: nat, isGold: bool)
      ensures this.required == required && this.isGold == isGold
    {
      this.required, this.isGold := required, isGold;
      status, difficulty, autoEscalated := "pending", "", false;
      claimedBy, consensusScore, consensusChoice := None, None, "";
    }

    /** Re-evaluates the task on its annotations.  `escalated` tells whether a split
        vote has just turned it into an expert task. */
    method Evaluate(annotations: seq<Annotation>, records: map<string, Record>, domain: string)
      returns (outcome: Option<Outcome>, escalated: bool)
      requires Weighted(Votes(annotations, records, domain))
      modifies this
      ensures outcome.None? <==> annotations == []
      ensures outcome.None? ==> unchanged(this) && !escalated
      ensures outcome.Some? ==>
                var o := outcome.value;
                && IsOutcome(Votes(annotations, records, domain), required, o)
                && claimedBy == None && consensusScore == Some(o.score) && consensusChoice == o.choice
                && status == (if o.reached then "completed"
                              else if old(status) == "pending" then "in_progress" else old(status))
                && escalated == (o.awaiting && !isGold && (old(difficulty) != "expert" || !old(autoEscalated)))
                && difficulty == (if escalated then "expert" else old(difficulty))
                && autoEscalated == (escalated || old(autoEscalated))
    {
      hide Weight, Round4, VoteOf, IsOutcome, Tallied, Weighted, Voted;
      escalated := false;
      if annotations == [] {
        return None, false;
      }
      var votes := Votes(annotations, records, domain);
      var totals, counts, order := TallyVotes(votes);
      var totalWeight := TotalWeight(votes, totals, order);
      SomethingTallied(votes, totals, order);
      var top, unique := Leader(totals, counts, order);
      var ratio := Round4(totals[top] / totalWeight);
      LeaderDecides(votes, totals, order, top, unique, required);

      claimedBy, consensusScore := None, Some(ratio);
      var reached, awaiting := false, false;
      if |annotations| >= required {
        if unique && ratio > 0.5 {
          reached, consensusChoice, status := true, top, "completed";
        } else {
          awaiting, consensusChoice := true, "";
          if status == "pending" {
            status := "in_progress";
          }
          if !isGold && (difficulty != "expert" || !autoEscalated) {
            difficulty, autoEscalated, escalated := "expert", true, true;
          }
        }
      } else {
        consensusChoice := "";
        if status == "pending" {
          status := "in_progress";
        }
      }
      outcome := Some(Outcome(ratio, reached, awaiting, consensusChoice));
    }
  }

  method TallyVotes(votes: seq<Vote>) returns (totals: map<string, real>, counts: map<string, nat>, order: seq<string>)
    ensures Tallied(votes, totals, order) && Counted(votes, counts) && counts.Keys == totals.Keys
  {
    hide Tallied, Counted;
    totals, counts, order := map[], map[], [];
    NothingTallied(votes);
    for i := 0 to |votes|
      invariant Tallied(votes[..i], totals, order) && Counted(votes[..i], counts) && counts.Keys == totals.Keys
    {
      var v := votes[i];
      TalliedNext(votes, i, totals, order);
      CountedNext(votes, i, counts);
      if v.answer !in totals {
        order := order + [v.answer];
      }
      counts := counts[v.answer := (if v.answer in counts then counts[v.answer] else 0) + 1];
      totals := totals[v.answer := (if v.answer in totals then totals[v.answer] else 0.0) + v.weight];
    }
    assert votes[..|votes|] == votes;
  }

  lemma NothingTallied(votes: seq<Vote>)
    ensures Tallied(votes[..0], map[], []) && Counted(votes[..0], map[])
  {
  }

  method TotalWeight(ghost votes: seq<Vote>, totals: map<string, real>, order: seq<string>) returns (total: real)
    requires Tallied(votes, totals, order)
    ensures total == Weight(votes, Anything)
  {
    hide Weight, Voted;
    total := 0.0;
    for i := 0 to |order|
      invariant total == SumOf(votes, order[..i])
    {
      assert order[..i + 1][..i] == order[..i] && order[i] in order;
      total := total + totals[order[i]];
    }
    assert order[..|order|] == order;
    SumIsTotal(votes, order);
  }

  /** The first entry of the ranking by weight, then by number of votes, and whether
      it leads the next one by more than the tie margin. */
  method Leader(totals: map<string, real>, counts: map<string, nat>, order: seq<string>)
    returns (top: string, unique: bool)
    requires order != [] && Distinct(order) && counts.Keys == totals.Keys
    requires forall answer :: answer in order <==> answer in totals
    ensures top in totals && forall other :: other in totals ==>
              totals[other] <= totals[top] && (totals[other] == totals[top] ==> counts[other] <= counts[top])
    ensures unique <==> forall other :: other in totals && other != top ==> totals[top] - totals[other] > 0.000001
  {
    top := order[0];
    for i := 1 to |order|
      invariant top in order
      invariant forall j :: 0 <= j < i ==>
                  && totals[order[j]] <= totals[top]
                  && (totals[order[j]] == totals[top] ==> counts[order[j]] <= counts[top])
    {
      var answer := order[i];
      assert answer in order;
      if totals[answer] > totals[top] || (totals[answer] == totals[top] && counts[answer] > counts[top]) {
        top := answer;
      }
    }
    unique := true;
    for i := 0 to |order|
      invariant unique <==> forall j :: 0 <= j < i && order[j] != top ==> totals[top] - totals[order[j]] > 0.000001
    {
      assert order[i] in order;
      if order[i] != top && totals[top] - totals[order[i]] <= 0.000001 {
        unique := false;
      }
    }
  }

  lemma SomethingTallied(votes: seq<Vote>, totals: map<string, real>, order: seq<string>)
    requires Weighted(votes) && votes != [] && Tallied(votes, totals, order)
    ensures Weight(votes, Anything) > 0.0 && order != [] && Distinct(order)
    ensures forall answer :: answer in order <==> answer in totals
  {
    hide Weight;
    WeightFacts(votes, votes[0].answer, votes[0].answer);
    assert Voted(votes, votes[0].answer);
  }

  /** Why the leader test decides: a rounded share above one half already implies the
      margin, so consensus is a majority and nothing else. */
  lemma LeaderDecides(
    votes: seq<Vote>, totals: map<string, real>, order: seq<string>, top: string, unique: bool, required: nat)
    requires Weighted(votes) && votes != [] && Tallied(votes, totals, order)
    requires top in totals && forall other :: other in totals ==> totals[other] <= totals[top]
    requires unique <==> forall other :: other in totals && other != top ==> totals[top] - totals[other] > 0.000001
    ensures Weight(votes, Anything) > 0.0
    ensures var score := Round4(totals[top] / Weight(votes, Anything));
      var reached := |votes| >= required && unique && score > 0.5;
      IsOutcome(votes, required, Outcome(score, reached, |votes| >= required && !reached, if reached then top else ""))
  {
    hide Weight, Round4, Voted, Weighted;
    SomethingTallied(votes, totals, order);
    forall other ensures Weight(votes, Answer(other)) <= Weight(votes, Answer(top)) {
      if other !in totals {
        UnvotedWeight(votes, other);
        WeightFacts(votes, top, top);
      }
    }
    assert Heaviest(votes, top) && Weight(votes, Answer(top)) == totals[top];
    MajorityFacts(votes, top);
    forall answer | Majority(votes, answer) ensures answer == top {
      MajorityFacts(votes, answer);
    }
  }
}
