/** The monthly AI budget of one organization: ledger, cached counters,
    enforcement and alerts of apps/core/finops.py. */
module FinOps {
  import opened Arithmetic
  import opened Sequences
  import opened Wrappers

  /** A calendar month, counted from some first one. */
  type Period = nat

  datatype Measure = Tokens | Cost

  datatype Entry = Entry(period: Period, tokens: nat, cost: nat)

  datatype Key = Key(period: Period, measure: Measure)

  function AmountOf(e: Entry, key: Key): nat {
    if e.period != key.period then 0
    else match key.measure
      case Tokens => e.tokens
      case Cost => e.cost
  }

  /** What the ledger adds up to. */
  function Sum(ledger: seq<Entry>, key: Key): nat {
    if ledger == [] then 0 else Sum(ledger[..|ledger| - 1], key) + AmountOf(ledger[|ledger| - 1], key)
  }

  lemma SumNext(ledger: seq<Entry>, e: Entry, key: Key)
    ensures Sum(ledger + [e], key) == Sum(ledger, key) + AmountOf(e, key)
  {
    assert (ledger + [e])[..|ledger|] == ledger;
  }

  // ---------- budgets ----------

  datatype Organization = Organization(
    tokenBudget: int, costBudgetMicrousd: int, alertThresholdPct: int, planTokens: Option<int>,
    planCostMicrousd: Option<int>)

  datatype Budgets = Budgets(tokens: nat, costMicrousd: nat, costNanousd: nat, alertPct: nat)

  /** Custom ceilings win over those of the plan, these over a general default. */
  function ResolveBudgets(org: Organization): (b: Budgets)
    ensures b.tokens >= 1 && b.costMicrousd >= 1 && b.costNanousd >= 1000 && 1 <= b.alertPct <= 100
    ensures b.costNanousd == 1000 * b.costMicrousd
    ensures org.tokenBudget > 0 ==> b.tokens == org.tokenBudget
    ensures org.tokenBudget <= 0 ==>
              match org.planTokens case Some(plan) => b.tokens == MaxInt(1, plan) case None => b.tokens == 100000
    ensures org.costBudgetMicrousd > 0 ==> b.costMicrousd == org.costBudgetMicrousd
    ensures org.costBudgetMicrousd <= 0 ==>
              match org.planCostMicrousd
              case Some(plan) => b.costMicrousd == MaxInt(1, plan)
              case None => b.costMicrousd == 5000000
    ensures 1 <= org.alertThresholdPct <= 100 ==> b.alertPct == org.alertThresholdPct
    ensures org.alertThresholdPct > 100 ==> b.alertPct == 100
    ensures org.alertThresholdPct < 0 ==> b.alertPct == 1
    ensures org.alertThresholdPct == 0 ==> b.alertPct == 80
  {
    var tokens := if org.tokenBudget > 0 then org.tokenBudget
                  else if org.planTokens.Some? then org.planTokens.value else 100000;
    var cost := if org.costBudgetMicrousd > 0 then org.costBudgetMicrousd
                else if org.planCostMicrousd.Some? then org.planCostMicrousd.value else 5000000;
    var pct := if org.alertThresholdPct != 0 then org.alertThresholdPct else 80;
    Budgets(MaxInt(1, tokens), MaxInt(1, cost), MaxInt(1000, cost * 1000), MaxInt(1, MinInt(100, pct)))
  }

  // ---------- ledger and counters ----------

  /** The ledger and the counters that are cached at the moment. */
  datatype Books = Books(ledger: seq<Entry>, counters: map<Key, nat>)

  /** Each cached counter agrees with the ledger. */
  ghost predicate Agrees(b: Books) {
    forall key :: key in b.counters ==> b.counters[key] == Sum(b.ledger, key)
  }

  predicate BothCached(b: Books, period: Period) {
    Key(period, Tokens) in b.counters && Key(period, Cost) in b.counters
  }

  function Cached(counters: map<Key, nat>, key: Key, total: nat): map<Key, nat> {
    if key in counters then counters else counters[key := total]
  }

  /** A read of a month's burn leaves both counters cached. */
  function AfterBurn(b: Books, period: Period): Books {
    var tokens, cost := Key(period, Tokens), Key(period, Cost);
    if BothCached(b, period) then b
    else b.(counters := Cached(Cached(b.counters, tokens, Sum(b.ledger, tokens)), cost, Sum(b.ledger, cost)))
  }

  /** What a read of a month's burn reports. */
  function Seen(b: Books, key: Key): nat {
    if BothCached(b, key.period) && key in b.counters then b.counters[key]
    else if key in b.counters then MaxInt(Sum(b.ledger, key), b.counters[key])
    else Sum(b.ledger, key)
  }

  /** A read of a month's burn, whatever its counters say: it keeps those that are cached,
      adds the ledger's totals for those that are not, and touches nothing else.  It
      reports the counters if both are cached, and never less than the ledger if not. */
  lemma BurnExactly(b: Books, period: Period, key: Key)
    ensures var after := AfterBurn(b, period);
      && after.ledger == b.ledger && BothCached(after, period)
      && (key in b.counters ==> key in after.counters && after.counters[key] == b.counters[key])
      && (key !in b.counters && key.period == period ==>
            key in after.counters && after.counters[key] == Sum(b.ledger, key))
      && (key !in b.counters && key.period != period ==> key !in after.counters)
    ensures key.period == period && BothCached(b, period) ==> key in b.counters && Seen(b, key) == b.counters[key]
    ensures key.period == period && !BothCached(b, period) ==>
              && Seen(b, key) >= Sum(b.ledger, key)
              && (key in b.counters ==> Seen(b, key) >= b.counters[key])
              && (Seen(b, key) == Sum(b.ledger, key) || (key in b.counters && Seen(b, key) == b.counters[key]))
  {
    hide Sum;
    match key.measure
    case Tokens =>
    case Cost =>
  }

  // ---------- recording a call ----------

  datatype Totals = Totals(tokens: nat, cost: nat)

  /** A recording between its reads and its writes: the new ledger row, which nobody
      else sees yet, and, if a counter was missing, the totals that it is going to
      store in both.  `overtaken` is history: another recording of the month has been
      committed since. */
  datatype Recording = Recording(entry: Entry, seed: Option<Totals>, overtaken: bool)

  /** The first half: insert the row, read the counters, and aggregate if one is
      missing. */
  function Begun(b: Books, e: Entry): Recording {
    var ledger := b.ledger + [e];
    Recording(e,
      if BothCached(b, e.period) then None
      else Some(Totals(Sum(ledger, Key(e.period, Tokens)), Sum(ledger, Key(e.period, Cost)))),
      false)
  }

  /** An increment that finds no counter stores what it should have added. */
  function Incremented(counters: map<Key, nat>, key: Key, delta: nat): map<Key, nat> {
    if delta == 0 then counters
    else counters[key := (if key in counters then counters[key] else 0) + delta]
  }

  /** The second half: write the counters and commit the row. */
  function Published(b: Books, r: Recording): Books {
    var tokens, cost := Key(r.entry.period, Tokens), Key(r.entry.period, Cost);
    Books(b.ledger + [r.entry],
      match r.seed
      case Some(totals) => b.counters[tokens := totals.tokens][cost := totals.cost]
      case None => Incremented(Incremented(b.counters, tokens, r.entry.tokens), cost, r.entry.cost))
  }

  /** A recording that nothing interrupts. */
  function AfterRecord(b: Books, e: Entry): Books {
    if e.tokens == 0 && e.cost == 0 then b else Published(b, Begun(b, e))
  }

  /** The increment of a counter that is gone although its month has spent something. */
  predicate Loses(b: Books, key: Key, delta: nat) {
    delta > 0 && key !in b.counters && Sum(b.ledger, key) > 0
  }

  /** A recording whose writes are wrong by now: its totals have been overtaken, or it
      relies on a counter that has been evicted. */
  predicate Faulty(b: Books, r: Recording) {
    if r.seed.Some? then r.overtaken
    else Loses(b, Key(r.entry.period, Tokens), r.entry.tokens) || Loses(b, Key(r.entry.period, Cost), r.entry.cost)
  }

  /** The totals of a recording are those of the ledger with its row, unless another
      recording of the month has overtaken it; then they are too low. */
  ghost predicate Tracked(ledger: seq<Entry>, r: Recording) {
    var tokens := Sum(ledger, Key(r.entry.period, Tokens)) + r.entry.tokens;
    var cost := Sum(ledger, Key(r.entry.period, Cost)) + r.entry.cost;
    && (r.entry.tokens > 0 || r.entry.cost > 0)
    && (r.seed.Some? ==>
          if r.overtaken
          then r.seed.value.tokens <= tokens && r.seed.value.cost <= cost && r.seed.value != Totals(tokens, cost)
          else r.seed.value == Totals(tokens, cost))
  }

  /** The row of a recording, and what it adds up to. */
  lemma RowAdds(ledger: seq<Entry>, e: Entry)
    ensures forall key :: Sum(ledger + [e], key) == Sum(ledger, key) + AmountOf(e, key)
  {
    forall key ensures Sum(ledger + [e], key) == Sum(ledger, key) + AmountOf(e, key) {
      SumNext(ledger, e, key);
    }
  }

  lemma OnlyTwoKeys(period: Period)
    ensures forall key: Key :: key.period == period ==> key == Key(period, Tokens) || key == Key(period, Cost)
  {
    forall key: Key | key.period == period ensures key == Key(period, Tokens) || key == Key(period, Cost) {
      assert key.measure == Tokens || key.measure == Cost;
    }
  }

  lemma BegunTracked(b: Books, e: Entry)
    requires e.tokens > 0 || e.cost > 0
    ensures Tracked(b.ledger, Begun(b, e)) && (Agrees(b) ==> !Faulty(b, Begun(b, e)))
  {
    hide Sum;
    RowAdds(b.ledger, e);
  }

  /** When exactly the writes of a recording keep the counters in agreement. */
  lemma PublishExactly(b: Books, r: Recording)
    requires Agrees(b) && Tracked(b.ledger, r)
    ensures Agrees(Published(b, r)) <==> !Faulty(b, r)
  {
    hide Sum;
    RowAdds(b.ledger, r.entry);
    OnlyTwoKeys(r.entry.period);
    var after, tokens, cost := Published(b, r), Key(r.entry.period, Tokens), Key(r.entry.period, Cost);
    assert forall key :: key != tokens && key != cost ==> AmountOf(r.entry, key) == 0;
    if Faulty(b, r) {
      assert (tokens in after.counters && after.counters[tokens] != Sum(after.ledger, tokens))
        || (cost in after.counters && after.counters[cost] != Sum(after.ledger, cost));
    }
  }

  /** Reads, and recordings that nothing interrupts, keep the counters in agreement
      with the ledger, and a read then reports the ledger's totals. */
  lemma AgreementKept(b: Books, period: Period, e: Entry)
    requires Agrees(b)
    ensures Agrees(AfterBurn(b, period)) && Agrees(AfterRecord(b, e))
    ensures forall key :: Seen(b, key) == Sum(b.ledger, key)
  {
    hide Sum, Begun, Published, Faulty, Tracked;
    if e.tokens > 0 || e.cost > 0 {
      BegunTracked(b, e);
      PublishExactly(b, Begun(b, e));
    }
  }

  function UsageOf(period: Period, promptTokens: int, completionTokens: int, costNanousd: int): Entry {
    Entry(period, MaxInt(0, promptTokens) + MaxInt(0, completionTokens), MaxInt(0, costNanousd))
  }

  /** The admission test. */
  predicate Exhausted(b: Books, budgets: Budgets, period: Period) {
    Seen(b, Key(period, Tokens)) >= budgets.tokens || Seen(b, Key(period, Cost)) >= budgets.costNanousd
  }

  lemma UsagePeriod(period: Period, promptTokens: int, completionTokens: int, costNanousd: int)
    ensures UsageOf(period, promptTokens, completionTokens, costNanousd).period == period
  {
  }

  // ---------- alerts ----------

  datatype Alert = ThresholdReached(period: Period) | BudgetExceeded(period: Period)

  function Percentage(amount: nat, budget: nat): real
    requires budget > 0
  {
    amount as real / budget as real * 100.0
  }

  /** The larger of both utilizations, to two decimals. */
  function Utilization(tokens: nat, cost: nat, budgets: Budgets): real
    requires budgets.tokens > 0 && budgets.costNanousd > 0
  {
    var larger := Max(Percentage(tokens, budgets.tokens), Percentage(cost, budgets.costNanousd));
    RoundHalfEven(larger * 100.0) as real / 100.0
  }

  /** The alerts that a utilization calls for. */
  predicate Calls(alert: Alert, period: Period, utilization: real, budgets: Budgets) {
    || (alert == ThresholdReached(period) && utilization >= budgets.alertPct as real)
    || (alert == BudgetExceeded(period) && utilization >= 100.0)
  }

  /** What an increment reports: the counter, or the seed if there is still none. */
  function Reported(counters: map<Key, nat>, key: Key, seedTotal: nat): nat {
    if key in counters then counters[key] else seedTotal
  }

  /** A recording that starts in agreement either carries the ledger's totals or finds
      both counters. */
  lemma BegunSeeds(b: Books, e: Entry)
    requires Agrees(b)
    ensures var r := Begun(b, e); var tokens, cost := Key(e.period, Tokens), Key(e.period, Cost);
      && r.entry == e && Published(b, r).ledger == b.ledger + [e]
      && if r.seed.Some? then r.seed.value == Totals(Sum(b.ledger + [e], tokens), Sum(b.ledger + [e], cost))
         else tokens in Published(b, r).counters && cost in Published(b, r).counters
  {
    hide Sum;
  }

  // ---------- the operations ----------

  datatype Reason = TokenBudgetExceeded | CostBudgetExceeded

  class OrganizationFinOps {
    var ledger: seq<Entry>
    var counters: map<Key, nat>
    var locks: set<Alert>
    var sent: seq<Alert>     // alerts handed to the outbox

    function Value(): Books
      reads this
    {
      Books(ledger, counters)
    }

    ghost predicate Valid()
      reads this
    {
      && Agrees(Value())
      && (forall alert :: alert in locks <==> alert in sent)
      && (forall i, j :: 0 <= i < j < |sent| ==> sent[i] != sent[j])
    }

    constructor ()
      ensures Valid() && Value() == Books([], map[]) && sent == []
    {
      ledger, counters, locks, sent := [], map[], {}, [];
    }

    /** The cache drops counters, at any time between two operations. */
    method Evict(keys: set<Key>)
      requires Valid()
      modifies this`counters
      ensures Valid() && counters == old(counters) - keys
    {
      counters := counters - keys;
    }

    method MonthlyBurn(period: Period) returns (tokens: nat, cost: nat)
      requires Valid()
      modifies this`counters
      ensures Valid() && Value() == AfterBurn(old(Value()), period)
      ensures tokens == Sum(ledger, Key(period, Tokens)) && cost == Sum(ledger, Key(period, Cost))
    {
      hide Sum;
      var tokenKey, costKey := Key(period, Tokens), Key(period, Cost);
      var cachedTokens := Get(tokenKey);
      var cachedCost := Get(costKey);
      if cachedTokens.Some? && cachedCost.Some? {
        return cachedTokens.value, cachedCost.value;
      }
      var dbTokens := LedgerTotal(tokenKey);
      var dbCost := LedgerTotal(costKey);
      if cachedTokens == None {
        counters := counters[tokenKey := dbTokens];
        cachedTokens := Get(tokenKey);
      }
      if cachedCost == None {
        counters := counters[costKey := dbCost];
        cachedCost := Get(costKey);
      }
      tokens, cost := dbTokens, dbCost;
      if cachedTokens.Some? {
        tokens := MaxInt(dbTokens, cachedTokens.value);
      }
      if cachedCost.Some? {
        cost := MaxInt(dbCost, cachedCost.value);
      }
    }

    method Get(key: Key) returns (value: Option<nat>)
      ensures value == if key in counters then Some(counters[key]) else None
    {
      value := if key in counters then Some(counters[key]) else None;
    }

    /** The aggregate query. */
    method LedgerTotal(key: Key) returns (total: nat)
      ensures total == Sum(ledger, key)
    {
      total := 0;
      for i := 0 to |ledger|
        invariant total == Sum(ledger[..i], key)
      {
        assert ledger[..i + 1] == ledger[..i] + [ledger[i]];
        SumNext(ledger[..i], ledger[i], key);
        total := total + AmountOf(ledger[i], key);
      }
      assert ledger[..|ledger|] == ledger;
    }

    /** Refuses exactly when a ledger total has reached its ceiling. */
    method Enforce(period: Period, budgets: Budgets) returns (outcome: Result<(), Reason>)
      requires Valid()
      modifies this`counters
      ensures Valid() && Value() == AfterBurn(old(Value()), period)
      ensures outcome.Err? <==> Exhausted(old(Value()), budgets, period)
      ensures outcome.Err? <==>
                || Sum(ledger, Key(period, Tokens)) >= budgets.tokens
                || Sum(ledger, Key(period, Cost)) >= budgets.costNanousd
      ensures outcome == Err(TokenBudgetExceeded) <==> Sum(ledger, Key(period, Tokens)) >= budgets.tokens
    {
      var tokens, cost := MonthlyBurn(period);
      if tokens >= budgets.tokens || cost >= budgets.costNanousd {
        return Err(if tokens >= budgets.tokens then TokenBudgetExceeded else CostBudgetExceeded);
      }
      outcome := Ok(());
    }

    method Increment(key: Key, delta: nat, seedTotal: nat) returns (total: nat)
      modifies this`counters
      ensures counters == if delta == 0 then old(counters)
                          else if key in old(counters) then old(counters)[key := old(counters)[key] + delta]
                          else old(counters)[key := seedTotal]
      ensures total == Reported(counters, key, seedTotal)
    {
      if delta == 0 {
        total := if key in counters then counters[key] else seedTotal;
      } else if key in counters {
        counters := counters[key := counters[key] + delta];
        total := counters[key];
      } else {
        counters := counters[key := seedTotal];
        total := seedTotal;
      }
    }

    /** Books a finished call and raises alerts: each at most once a month, the first
        time the utilization is there. */
    method Record(period: Period, promptTokens: int, completionTokens: int, costNanousd: int, budgets: Budgets)
      requires Valid() && budgets.tokens > 0 && budgets.costNanousd > 0
      modifies this
      ensures Valid()
      ensures Value() == AfterRecord(old(Value()), UsageOf(period, promptTokens, completionTokens, costNanousd))
      ensures old(sent) <= sent
      ensures var usage := UsageOf(period, promptTokens, completionTokens, costNanousd);
        var utilization := Utilization(Sum(ledger, Key(period, Tokens)), Sum(ledger, Key(period, Cost)), budgets);
        forall alert :: alert in sent <==>
          alert in old(sent) || ((usage.tokens > 0 || usage.cost > 0) && Calls(alert, period, utilization, budgets))
    {
      hide Sum, Utilization;
      var tokens, cost := MaxInt(0, promptTokens) + MaxInt(0, completionTokens), MaxInt(0, costNanousd);
      if tokens == 0 && cost == 0 {
        return;
      }
      var newTokens, newCost := Book(Entry(period, tokens, cost));
      var utilization := Utilization(newTokens, newCost, budgets);
      if utilization >= budgets.alertPct as real {
        SendOnce(ThresholdReached(period));
      }
      if utilization >= 100.0 {
        SendOnce(BudgetExceeded(period));
      }
    }

    /** The ledger row and the counters of one call. */
    method Book(e: Entry) returns (newTokens: nat, newCost: nat)
      requires Valid() && (e.tokens > 0 || e.cost > 0)
      modifies this`ledger, this`counters
      ensures Valid() && Value() == AfterRecord(old(Value()), e)
      ensures newTokens == Sum(ledger, Key(e.period, Tokens)) && newCost == Sum(ledger, Key(e.period, Cost))
    {
      hide Sum, Begun, Published, AfterBurn, Seen;
      AgreementKept(Value(), e.period, e);
      RowAdds(ledger, e);
      BegunSeeds(Value(), e);
      var recording := BeginRecording(e);
      newTokens, newCost := PublishRecording(recording);
    }

    /** The reads of a recording. */
    method BeginRecording(e: Entry) returns (recording: Recording)
      ensures recording == Begun(Value(), e)
    {
      hide Sum;
      var tokenKey, costKey := Key(e.period, Tokens), Key(e.period, Cost);
      var priorTokens := Get(tokenKey);
      var priorCost := Get(costKey);
      if priorTokens.Some? && priorCost.Some? {
        return Recording(e, None, false);
      }
      RowAdds(ledger, e);
      var tokens := LedgerTotal(tokenKey);
      var cost := LedgerTotal(costKey);
      tokens, cost := tokens + e.tokens, cost + e.cost;
      tokens := if tokens != 0 then tokens else e.tokens;
      cost := if cost != 0 then cost else e.cost;
      recording := Recording(e, Some(Totals(tokens, cost)), false);
    }

    /** The writes of a recording, whatever has happened since its reads. */
    method PublishRecording(recording: Recording) returns (newTokens: nat, newCost: nat)
      modifies this`ledger, this`counters
      ensures Value() == Published(old(Value()), recording)
      ensures recording.seed.Some? ==> recording.seed.value == Totals(newTokens, newCost)
      ensures recording.seed == None ==>
                && newTokens == Reported(counters, Key(recording.entry.period, Tokens), recording.entry.tokens)
                && newCost == Reported(counters, Key(recording.entry.period, Cost), recording.entry.cost)
    {
      var e := recording.entry;
      var tokenKey, costKey := Key(e.period, Tokens), Key(e.period, Cost);
      if recording.seed.Some? {
        newTokens, newCost := recording.seed.value.tokens, recording.seed.value.cost;
        counters := counters[tokenKey := newTokens][costKey := newCost];
      } else {
        newTokens := Increment(tokenKey, e.tokens, e.tokens);
        newCost := Increment(costKey, e.cost, e.cost);
      }
      ledger := ledger + [e];
    }

    method SendOnce(alert: Alert)
      requires Valid()
      modifies this`locks, this`sent
      ensures Valid() && alert in sent
      ensures sent == if alert in old(sent) then old(sent) else old(sent) + [alert]
    {
      if alert !in locks {
        locks, sent := locks + {alert}, sent + [alert];
      }
    }
  }

  // ---------- calls in flight ----------

  /** `running` calls have been admitted and have not come back; `recordings` have come
      back and are being recorded. */
  datatype System = System(now: Period, books: Books, running: nat, recordings: seq<Recording>)

  datatype Step =
    | NextMonth
    | Evict(keys: set<Key>)
    | Query(period: Period)
    | Admit
    | Begin(promptTokens: int, completionTokens: int, costNanousd: int)
    | Publish(i: nat)
    | Rollback(i: nat)
    | GiveUp

  predicate Enabled(s: System, step: Step) {
    && (step.Begin? || step.GiveUp? ==> s.running > 0)
    && (step.Publish? || step.Rollback? ==> step.i < |s.recordings|)
  }

  /** The other recordings of a month once one of them is committed. */
  function Overtaken(recordings: seq<Recording>, period: Period): (after: seq<Recording>)
    ensures |after| == |recordings|
    ensures forall i :: 0 <= i < |after| ==>
              after[i] == if recordings[i].entry.period == period then recordings[i].(overtaken := true)
                          else recordings[i]
  {
    seq(|recordings|, i requires 0 <= i < |recordings| =>
      if recordings[i].entry.period == period then recordings[i].(overtaken := true) else recordings[i])
  }

  /** A call is booked in the month in which its recording begins. */
  function Apply(budgets: Budgets, s: System, step: Step): System
    requires Enabled(s, step)
  {
    match step
    case NextMonth => s.(now := s.now + 1)
    case Evict(keys) => s.(books := s.books.(counters := s.books.counters - keys))
    case Query(period) => s.(books := AfterBurn(s.books, period))
    case Admit =>
      s.(books := AfterBurn(s.books, s.now),
         running := if Exhausted(s.books, budgets, s.now) then s.running else s.running + 1)
    case Begin(promptTokens, completionTokens, costNanousd) =>
      var usage := UsageOf(s.now, promptTokens, completionTokens, costNanousd);
      s.(running := s.running - 1,
         recordings := s.recordings + if usage.tokens == 0 && usage.cost == 0 then [] else [Begun(s.books, usage)])
    case Publish(i) =>
      var r := s.recordings[i];
      s.(books := Published(s.books, r), recordings := Overtaken(Without(s.recordings, i), r.entry.period))
    case Rollback(i) => s.(recordings := Without(s.recordings, i))
    case GiveUp => s.(running := s.running - 1)
  }

  const START := System(0, Books([], map[]), 0, [])

  /** The state after some steps; a step that is not possible changes nothing. */
  function Execute(budgets: Budgets, steps: seq<Step>): System {
    if steps == [] then START
    else
      var s, step := Execute(budgets, steps[..|steps| - 1]), steps[|steps| - 1];
      if Enabled(s, step) then Apply(budgets, s, step) else s
  }

  lemma ExecuteNext(budgets: Budgets, steps: seq<Step>, step: Step)
    requires Enabled(Execute(budgets, steps), step)
    ensures Execute(budgets, steps + [step]) == Apply(budgets, Execute(budgets, steps), step)
  {
    assert (steps + [step])[..|steps|] == steps;
  }

  // ---------- agreement ----------

  ghost predicate AllTracked(s: System) {
    forall i :: 0 <= i < |s.recordings| ==> Tracked(s.books.ledger, s.recordings[i])
  }

  /** A committed row overtakes the other recordings of its month, and only those. */
  lemma RowOvertakes(ledger: seq<Entry>, e: Entry, r: Recording)
    requires Tracked(ledger, r) && (e.tokens > 0 || e.cost > 0)
    ensures Tracked(ledger + [e], if r.entry.period == e.period then r.(overtaken := true) else r)
  {
    hide Sum;
    RowAdds(ledger, e);
  }

  lemma StepKeepsTracked(budgets: Budgets, s: System, step: Step)
    requires Enabled(s, step) && AllTracked(s)
    ensures AllTracked(Apply(budgets, s, step))
  {
    hide Tracked, Begun, Published, AfterBurn, Exhausted, UsageOf;
    match step
    case Begin(promptTokens, completionTokens, costNanousd) =>
      var usage := UsageOf(s.now, promptTokens, completionTokens, costNanousd);
      if usage.tokens > 0 || usage.cost > 0 {
        BegunTracked(s.books, usage);
      }
    case Publish(i) =>
      var r, rest := s.recordings[i], Without(s.recordings, i);
      PublishedLedger(s.books, r);
      assert Tracked(s.books.ledger, r);
      assert r.entry.tokens > 0 || r.entry.cost > 0 by { TrackedUses(s.books.ledger, r); }
      forall j | 0 <= j < |rest|
        ensures Tracked(s.books.ledger + [r.entry],
                  if rest[j].entry.period == r.entry.period then rest[j].(overtaken := true) else rest[j])
      {
        assert rest[j] == s.recordings[if j < i then j else j + 1];
        RowOvertakes(s.books.ledger, r.entry, rest[j]);
      }
    case _ => LedgerKept(s.books, s.now, step);
  }

  lemma PublishedLedger(b: Books, r: Recording)
    ensures Published(b, r).ledger == b.ledger + [r.entry]
  {
  }

  lemma TrackedUses(ledger: seq<Entry>, r: Recording)
    requires Tracked(ledger, r)
    ensures r.entry.tokens > 0 || r.entry.cost > 0
  {
  }

  lemma LedgerKept(b: Books, now: Period, step: Step)
    ensures AfterBurn(b, now).ledger == b.ledger
    ensures step.Query? ==> AfterBurn(b, step.period).ledger == b.ledger
  {
  }

  /** The step writes what is wrong by now. */
  predicate Spoils(s: System, step: Step)
    requires Enabled(s, step)
  {
    step.Publish? && Faulty(s.books, s.recordings[step.i])
  }

  lemma StepAgreesExactly(budgets: Budgets, s: System, step: Step)
    requires Enabled(s, step) && Agrees(s.books) && AllTracked(s)
    ensures Agrees(Apply(budgets, s, step).books) <==> !Spoils(s, step)
  {
    hide Sum, Tracked, Begun, Published, AfterBurn, Exhausted, Faulty;
    match step
    case Publish(i) => PublishExactly(s.books, s.recordings[i]);
    case Query(period) => AgreementKept(s.books, period, Entry(0, 0, 0));
    case Admit => AgreementKept(s.books, s.now, Entry(0, 0, 0));
    case _ =>
  }

  /** Cached counters agree with the ledger in all states of the run. */
  ghost predicate AlwaysAgrees(budgets: Budgets, steps: seq<Step>) {
    Agrees(Execute(budgets, steps).books) && (steps != [] ==> AlwaysAgrees(budgets, steps[..|steps| - 1]))
  }

  /** No recording writes its counters after it was overtaken or lost a counter that it
      relies on. */
  ghost predicate Sound(budgets: Budgets, steps: seq<Step>) {
    steps != [] ==>
      var before, step := steps[..|steps| - 1], steps[|steps| - 1];
      && Sound(budgets, before)
      && (Enabled(Execute(budgets, before), step) ==> !Spoils(Execute(budgets, before), step))
  }

  lemma {:induction false} AlwaysTracked(budgets: Budgets, steps: seq<Step>)
    ensures AllTracked(Execute(budgets, steps))
  {
    hide Apply, Enabled, AllTracked;
    if steps == [] {
      NothingTracked();
    } else {
      AlwaysTracked(budgets, steps[..|steps| - 1]);
      if Enabled(Execute(budgets, steps[..|steps| - 1]), steps[|steps| - 1]) {
        StepKeepsTracked(budgets, Execute(budgets, steps[..|steps| - 1]), steps[|steps| - 1]);
      }
    }
  }

  lemma NothingTracked()
    ensures AllTracked(START) && Agrees(START.books)
  {
  }

  /** Over every interleaving of calls, overlapping recordings, evictions and month
      ends: cached counters always agree with the ledger if and only if no recording
      writes them after another one of its month has overtaken its totals, or after
      the counter that it increments has been evicted. */
  lemma {:induction false} CountersAgree(budgets: Budgets, steps: seq<Step>)
    ensures AlwaysAgrees(budgets, steps) <==> Sound(budgets, steps)
  {
    hide Apply, Enabled, AllTracked, Spoils, Agrees;
    if steps == [] {
      NothingTracked();
    } else {
      var before, step := steps[..|steps| - 1], steps[|steps| - 1];
      CountersAgree(budgets, before);
      AlwaysTracked(budgets, before);
      if AlwaysAgrees(budgets, before) && Enabled(Execute(budgets, before), step) {
        StepAgreesExactly(budgets, Execute(budgets, before), step);
      }
    }
  }

  /** Where counters agree, reads report the ledger's totals. */
  lemma AgreedReads(b: Books, key: Key)
    requires Agrees(b)
    ensures Seen(b, key) == Sum(b.ledger, key)
  {
    hide Sum;
  }

  /** In an exhausted month a call is still admitted exactly when both counters are
      cached and both are below their ceilings: only a stale counter lets it in. */
  lemma AdmittedTooLate(b: Books, budgets: Budgets, period: Period)
    requires var tokens, cost := Key(period, Tokens), Key(period, Cost);
      Sum(b.ledger, tokens) >= budgets.tokens || Sum(b.ledger, cost) >= budgets.costNanousd
    ensures var tokens, cost := Key(period, Tokens), Key(period, Cost);
      !Exhausted(b, budgets, period) <==>
        && tokens in b.counters && cost in b.counters
        && b.counters[tokens] < budgets.tokens && b.counters[cost] < budgets.costNanousd
  {
    hide Sum;
  }

  // ---------- overlapping recordings ----------

  /** A recording may begin now: every unfinished one of the month relies on the counters,
      and so will this one. */
  ghost predicate MayBegin(s: System) {
    forall i :: 0 <= i < |s.recordings| && s.recordings[i].entry.period == s.now ==>
      s.recordings[i].seed == None && BothCached(s.books, s.now)
  }

  /** Recordings that find a counter missing overlap no other one of their month, and
      counters are evicted only while nothing is being recorded. */
  ghost predicate Orderly(budgets: Budgets, steps: seq<Step>) {
    steps != [] ==>
      var before, step := steps[..|steps| - 1], steps[|steps| - 1];
      && Orderly(budgets, before)
      && (step.Begin? ==> MayBegin(Execute(budgets, before)))
      && (step.Evict? ==> Execute(budgets, before).recordings == [])
  }

  /** Recordings that overlap in a month rely on its counters, which are there. */
  ghost predicate Separate(s: System) {
    && (forall i, j :: 0 <= i < j < |s.recordings| && s.recordings[i].entry.period == s.recordings[j].entry.period ==>
          s.recordings[i].seed == None && s.recordings[j].seed == None)
    && (forall i :: 0 <= i < |s.recordings| ==> Ready(s.books, s.recordings[i]))
  }

  ghost predicate Ready(b: Books, r: Recording) {
    if r.seed == None then BothCached(b, r.entry.period) else !r.overtaken
  }

  lemma StepKeepsSeparate(budgets: Budgets, s: System, step: Step)
    requires Enabled(s, step) && Separate(s)
    requires step.Begin? ==> MayBegin(s)
    requires step.Evict? ==> s.recordings == []
    ensures Separate(Apply(budgets, s, step)) && !Spoils(s, step)
  {
    hide Sum, Exhausted, UsageOf, MayBegin, Published, AfterBurn;
    match step
    case Begin(promptTokens, completionTokens, costNanousd) => BeginKeepsSeparate(budgets, s, step);
    case Publish(i) => PublishKeepsSeparate(budgets, s, i);
    case Query(period) => CachedStays(s.books, period, Recording(Entry(0, 0, 0), None, false));
    case Admit => CachedStays(s.books, s.now, Recording(Entry(0, 0, 0), None, false));
    case _ =>
  }

  lemma CachedStays(b: Books, period: Period, r: Recording)
    ensures b.counters.Keys <= AfterBurn(b, period).counters.Keys
    ensures b.counters.Keys <= Published(b, r).counters.Keys
  {
  }

  lemma BeginKeepsSeparate(budgets: Budgets, s: System, step: Step)
    requires step.Begin? && Enabled(s, step) && Separate(s) && MayBegin(s)
    ensures Separate(Apply(budgets, s, step))
  {
    hide Sum, UsageOf, BothCached;
    UsagePeriod(s.now, step.promptTokens, step.completionTokens, step.costNanousd);
  }

  lemma PublishKeepsSeparate(budgets: Budgets, s: System, i: nat)
    requires i < |s.recordings| && Separate(s)
    ensures Separate(Apply(budgets, s, Publish(i))) && !Faulty(s.books, s.recordings[i])
  {
    hide Sum, Published, Faulty, Ready;
    var r, rest := s.recordings[i], Without(s.recordings, i);
    NotFaulty(s.books, r);
    forall j | 0 <= j < |rest|
      ensures rest[j] == s.recordings[if j < i then j else j + 1]
      ensures Ready(Published(s.books, r), Overtaken(rest, r.entry.period)[j])
    {
      ReadyAfterOther(s.books, rest[j], r);
    }
  }

  lemma NotFaulty(b: Books, r: Recording)
    requires Ready(b, r)
    ensures !Faulty(b, r)
  {
  }

  lemma ReadyAfterOther(b: Books, other: Recording, r: Recording)
    requires Ready(b, other)
    requires other.entry.period == r.entry.period ==> other.seed == None
    ensures Ready(Published(b, r), other)
    ensures other.entry.period == r.entry.period ==> Ready(Published(b, r), other.(overtaken := true))
  {
    hide Published;
    CachedStays(b, r.entry.period, r);
  }

  /** A condition that callers can keep: orderly recordings and evictions never spoil a
      counter. */
  lemma {:induction false} OrderlyRunsAreSound(budgets: Budgets, steps: seq<Step>)
    requires Orderly(budgets, steps)
    ensures Sound(budgets, steps) && Separate(Execute(budgets, steps))
  {
    hide Apply, Enabled, Separate, Spoils, MayBegin;
    if steps == [] {
      NothingSeparate();
    } else {
      var before, step := steps[..|steps| - 1], steps[|steps| - 1];
      OrderlyRunsAreSound(budgets, before);
      if Enabled(Execute(budgets, before), step) {
        StepKeepsSeparate(budgets, Execute(budgets, before), step);
      }
    }
  }

  lemma NothingSeparate()
    ensures Separate(START)
  {
  }

  // ---------- overspend ----------

  function InFlight(s: System): nat {
    s.running + |s.recordings|
  }

  /** At most `k` calls are ever in flight, and each uses at most `maxTokens` tokens
      and `maxCost` nano-dollars. */
  ghost predicate Limited(budgets: Budgets, steps: seq<Step>, k: nat, maxTokens: nat, maxCost: nat) {
    && InFlight(Execute(budgets, steps)) <= k
    && (steps != [] ==>
          && Limited(budgets, steps[..|steps| - 1], k, maxTokens, maxCost)
          && UsesAtMost(steps[|steps| - 1], maxTokens, maxCost))
  }

  predicate UsesAtMost(step: Step, maxTokens: nat, maxCost: nat) {
    step.Begin? ==>
      var usage := UsageOf(0, step.promptTokens, step.completionTokens, step.costNanousd);
      usage.tokens <= maxTokens && usage.cost <= maxCost
  }

  /** No call is admitted in a month whose ledger has reached a ceiling. */
  ghost predicate AdmitsInTime(budgets: Budgets, steps: seq<Step>) {
    steps != [] ==>
      var before, step := steps[..|steps| - 1], steps[|steps| - 1];
      && AdmitsInTime(budgets, before)
      && (step == Admit ==> TimelyAdmission(budgets, Execute(budgets, before)))
  }

  ghost predicate TimelyAdmission(budgets: Budgets, s: System) {
    !Exhausted(s.books, budgets, s.now) ==>
      && Sum(s.books.ledger, Key(s.now, Tokens)) < budgets.tokens
      && Sum(s.books.ledger, Key(s.now, Cost)) < budgets.costNanousd
  }

  lemma {:induction false} SoundRunsAdmitInTime(budgets: Budgets, steps: seq<Step>)
    requires Sound(budgets, steps)
    ensures AdmitsInTime(budgets, steps)
  {
    hide Sum, Apply, Enabled, Spoils, Seen;
    if steps != [] {
      var before := steps[..|steps| - 1];
      SoundRunsAdmitInTime(budgets, before);
      CountersAgree(budgets, before);
      AgreedReads(Execute(budgets, before).books, Key(Execute(budgets, before).now, Tokens));
      AgreedReads(Execute(budgets, before).books, Key(Execute(budgets, before).now, Cost));
    }
  }

  function Ceiling(budgets: Budgets, m: Measure): nat {
    if m == Tokens then budgets.tokens else budgets.costNanousd
  }

  function MaxUse(m: Measure, maxTokens: nat, maxCost: nat): nat {
    if m == Tokens then maxTokens else maxCost
  }

  /** How many recordings of a month are unfinished. */
  function PendingIn(recordings: seq<Recording>, p: Period): (n: nat)
    ensures n <= |recordings|
  {
    if recordings == [] then 0
    else PendingIn(recordings[..|recordings| - 1], p) + if recordings[|recordings| - 1].entry.period == p then 1 else 0
  }

  lemma {:induction false} PendingConcat(a: seq<Recording>, b: seq<Recording>, p: Period)
    ensures PendingIn(a + b, p) == PendingIn(a, p) + PendingIn(b, p)
  {
    if b == [] {
      assert a + b == a;
    } else {
      PendingConcat(a, b[..|b| - 1], p);
      assert (a + b)[..|a + b| - 1] == a + b[..|b| - 1];
    }
  }

  lemma PendingOne(r: Recording, p: Period)
    ensures PendingIn([r], p) == if r.entry.period == p then 1 else 0
  {
    assert [r][..0] == [];
  }

  lemma PendingWithout(recordings: seq<Recording>, i: nat, p: Period)
    requires i < |recordings|
    ensures PendingIn(recordings, p) ==
            PendingIn(Without(recordings, i), p) + if recordings[i].entry.period == p then 1 else 0
  {
    hide PendingIn;
    var low, high := recordings[..i], recordings[i + 1..];
    assert recordings == low + ([recordings[i]] + high);
    PendingConcat(low, [recordings[i]] + high, p);
    PendingConcat([recordings[i]], high, p);
    PendingConcat(low, high, p);
    PendingOne(recordings[i], p);
  }

  lemma {:induction false} PendingOvertaken(recordings: seq<Recording>, period: Period, p: Period)
    ensures PendingIn(Overtaken(recordings, period), p) == PendingIn(recordings, p)
  {
    if recordings != [] {
      var n := |recordings| - 1;
      PendingOvertaken(recordings[..n], period, p);
      assert Overtaken(recordings, period)[..n] == Overtaken(recordings[..n], period);
    }
  }

  /** `spent` leaves room for `calls` more calls below the overspend bound. */
  predicate Room(spent: nat, calls: nat, ceiling: nat, k: nat, use: nat) {
    spent + calls * use <= ceiling - 1 + k * use
  }

  /** Calls that may still be booked in a month. */
  function Bookable(s: System, p: Period): nat {
    PendingIn(s.recordings, p) + if p == s.now then s.running else 0
  }

  /** Every month so far has room left for the calls that may still be booked in it, and
      later ones are empty. */
  ghost predicate Within(s: System, m: Measure, ceiling: nat, k: nat, use: nat) {
    && (forall p: Period :: p <= s.now ==> Room(Sum(s.books.ledger, Key(p, m)), Bookable(s, p), ceiling, k, use))
    && (forall p: Period :: p > s.now ==> Sum(s.books.ledger, Key(p, m)) == 0 && PendingIn(s.recordings, p) == 0)
    && (forall i :: 0 <= i < |s.recordings| ==>
          AmountOf(s.recordings[i].entry, Key(s.recordings[i].entry.period, m)) <= use)
  }

  lemma FreshRoom(calls: nat, ceiling: nat, k: nat, use: nat)
    requires calls <= k && ceiling >= 1
    ensures Room(0, calls, ceiling, k, use)
  {
    MoreCalls(calls, k, use);
  }

  lemma MoreCalls(few: nat, many: nat, use: nat)
    requires few <= many
    ensures few * use <= many * use
  {
    assert many * use == few * use + (many - few) * use;
  }

  lemma RoomForOneMore(spent: nat, calls: nat, ceiling: nat, k: nat, use: nat)
    requires calls < k && spent < ceiling
    ensures Room(spent, calls + 1, ceiling, k, use)
  {
    MoreCalls(calls + 1, k, use);
  }

  lemma RoomUsed(spent: nat, calls: nat, used: nat, ceiling: nat, k: nat, use: nat)
    requires calls > 0 && Room(spent, calls, ceiling, k, use) && used <= use
    ensures Room(spent + used, calls - 1, ceiling, k, use)
  {
    assert calls * use == (calls - 1) * use + use;
  }

  lemma RoomForFewer(spent: nat, calls: nat, fewer: nat, ceiling: nat, k: nat, use: nat)
    requires Room(spent, calls, ceiling, k, use) && fewer <= calls
    ensures Room(spent, fewer, ceiling, k, use)
  {
    MoreCalls(fewer, calls, use);
  }

  lemma NextMonthKeepsWithin(budgets: Budgets, s: System, m: Measure, ceiling: nat, k: nat, use: nat)
    requires Within(s, m, ceiling, k, use) && InFlight(s) <= k && ceiling >= 1
    ensures Within(Apply(budgets, s, NextMonth), m, ceiling, k, use)
  {
    hide Sum, Room, AmountOf, PendingIn;
    var after := Apply(budgets, s, NextMonth);
    forall p: Period | p <= after.now
      ensures Room(Sum(after.books.ledger, Key(p, m)), Bookable(after, p), ceiling, k, use)
    {
      if p <= s.now {
        RoomForFewer(Sum(s.books.ledger, Key(p, m)), Bookable(s, p), Bookable(after, p), ceiling, k, use);
      } else {
        FreshRoom(s.running, ceiling, k, use);
      }
    }
  }

  lemma AdmitKeepsWithin(budgets: Budgets, s: System, m: Measure, k: nat, use: nat)
    requires Within(s, m, Ceiling(budgets, m), k, use) && TimelyAdmission(budgets, s)
    requires InFlight(Apply(budgets, s, Admit)) <= k
    ensures Within(Apply(budgets, s, Admit), m, Ceiling(budgets, m), k, use)
  {
    hide Sum, Room, AmountOf, PendingIn, Exhausted;
    var after := Apply(budgets, s, Admit);
    LedgerKept(s.books, s.now, Admit);
    forall p: Period | p <= after.now
      ensures Room(Sum(after.books.ledger, Key(p, m)), Bookable(after, p), Ceiling(budgets, m), k, use)
    {
      if p == s.now && after.running > s.running {
        RoomForOneMore(Sum(s.books.ledger, Key(p, m)), Bookable(s, p), Ceiling(budgets, m), k, use);
      }
    }
  }

  lemma BeginKeepsWithin(budgets: Budgets, s: System, step: Step, m: Measure, ceiling: nat, k: nat, use: nat)
    requires step.Begin? && Enabled(s, step) && Within(s, m, ceiling, k, use)
    requires AmountOf(UsageOf(s.now, step.promptTokens, step.completionTokens, step.costNanousd), Key(s.now, m)) <= use
    ensures Within(Apply(budgets, s, step), m, ceiling, k, use)
  {
    hide Sum, Room, AmountOf, PendingIn, UsageOf, BothCached;
    var after := Apply(budgets, s, step);
    var usage := UsageOf(s.now, step.promptTokens, step.completionTokens, step.costNanousd);
    UsagePeriod(s.now, step.promptTokens, step.completionTokens, step.costNanousd);
    forall p: Period
      ensures p <= after.now ==> Room(Sum(after.books.ledger, Key(p, m)), Bookable(after, p), ceiling, k, use)
      ensures p > after.now ==> PendingIn(after.recordings, p) == 0
    {
      PendingConcat(s.recordings, [Begun(s.books, usage)], p);
      PendingOne(Begun(s.books, usage), p);
      assert s.recordings + [] == s.recordings;
      if p <= s.now {
        RoomForFewer(Sum(s.books.ledger, Key(p, m)), Bookable(s, p), Bookable(after, p), ceiling, k, use);
      }
    }
  }

  lemma PublishKeepsWithin(budgets: Budgets, s: System, i: nat, m: Measure, ceiling: nat, k: nat, use: nat)
    requires i < |s.recordings| && Within(s, m, ceiling, k, use)
    ensures Within(Apply(budgets, s, Publish(i)), m, ceiling, k, use)
  {
    hide Sum, Room, AmountOf, PendingIn, Published;
    var after, r := Apply(budgets, s, Publish(i)), s.recordings[i];
    PublishedLedger(s.books, r);
    forall p: Period
      ensures p <= after.now ==> Room(Sum(after.books.ledger, Key(p, m)), Bookable(after, p), ceiling, k, use)
      ensures p > after.now ==> Sum(after.books.ledger, Key(p, m)) == 0 && PendingIn(after.recordings, p) == 0
    {
      BookedOnce(s.books.ledger, r.entry, Key(p, m));
      PendingWithout(s.recordings, i, p);
      PendingOvertaken(Without(s.recordings, i), r.entry.period, p);
      if p <= s.now && p == r.entry.period {
        RoomUsed(Sum(s.books.ledger, Key(p, m)), Bookable(s, p), AmountOf(r.entry, Key(p, m)), ceiling, k, use);
      }
    }
    forall j | 0 <= j < |after.recordings|
      ensures AmountOf(after.recordings[j].entry, Key(after.recordings[j].entry.period, m)) <= use
    {
      assert after.recordings[j].entry == s.recordings[if j < i then j else j + 1].entry;
    }
  }

  /** A row is booked in its own month only. */
  lemma BookedOnce(ledger: seq<Entry>, e: Entry, key: Key)
    ensures Sum(ledger + [e], key) == Sum(ledger, key) + AmountOf(e, key)
    ensures key.period != e.period ==> AmountOf(e, key) == 0
  {
    SumNext(ledger, e, key);
  }

  lemma DropKeepsWithin(budgets: Budgets, s: System, step: Step, m: Measure, ceiling: nat, k: nat, use: nat)
    requires step.Rollback? || step.GiveUp? || step.Evict? || step.Query?
    requires Enabled(s, step) && Within(s, m, ceiling, k, use)
    ensures Within(Apply(budgets, s, step), m, ceiling, k, use)
  {
    hide Sum, Room, AmountOf, PendingIn;
    var after := Apply(budgets, s, step);
    LedgerKept(s.books, s.now, step);
    forall p: Period
      ensures p <= after.now ==> Room(Sum(after.books.ledger, Key(p, m)), Bookable(after, p), ceiling, k, use)
      ensures p > after.now ==> PendingIn(after.recordings, p) == 0
    {
      if step.Rollback? {
        PendingWithout(s.recordings, step.i, p);
      }
      if p <= s.now {
        RoomForFewer(Sum(s.books.ledger, Key(p, m)), Bookable(s, p), Bookable(after, p), ceiling, k, use);
      }
    }
    forall j | 0 <= j < |after.recordings|
      ensures AmountOf(after.recordings[j].entry, Key(after.recordings[j].entry.period, m)) <= use
    {
      assert after.recordings[j] == s.recordings[if step.Rollback? && j >= step.i then j + 1 else j];
    }
  }

  lemma NothingSpent(m: Measure, ceiling: nat, k: nat, use: nat)
    requires ceiling >= 1
    ensures Within(START, m, ceiling, k, use)
  {
    FreshRoom(0, ceiling, k, use);
  }

  lemma {:induction false} AlwaysWithin(
    budgets: Budgets, steps: seq<Step>, m: Measure, k: nat, maxTokens: nat, maxCost: nat)
    requires Ceiling(budgets, m) >= 1 && Limited(budgets, steps, k, maxTokens, maxCost) && AdmitsInTime(budgets, steps)
    ensures Within(Execute(budgets, steps), m, Ceiling(budgets, m), k, MaxUse(m, maxTokens, maxCost))
  {
    hide Within, Apply, TimelyAdmission, InFlight, UsageOf, AmountOf, UsesAtMost, Enabled;
    var ceiling, use := Ceiling(budgets, m), MaxUse(m, maxTokens, maxCost);
    if steps == [] {
      NothingSpent(m, ceiling, k, use);
    } else {
      var before, step := steps[..|steps| - 1], steps[|steps| - 1];
      AlwaysWithin(budgets, before, m, k, maxTokens, maxCost);
      var s := Execute(budgets, before);
      if Enabled(s, step) {
        match step
        case NextMonth => NextMonthKeepsWithin(budgets, s, m, ceiling, k, use);
        case Admit => AdmitKeepsWithin(budgets, s, m, k, use);
        case Begin(_, _, _) =>
          UsedAmount(s.now, step, m, maxTokens, maxCost);
          BeginKeepsWithin(budgets, s, step, m, ceiling, k, use);
        case Publish(i) =>
          PublishEnabled(s, i);
          PublishKeepsWithin(budgets, s, i, m, ceiling, k, use);
        case _ => DropKeepsWithin(budgets, s, step, m, ceiling, k, use);
      }
    }
  }

  lemma UsedAmount(now: Period, step: Step, m: Measure, maxTokens: nat, maxCost: nat)
    requires step.Begin? && UsesAtMost(step, maxTokens, maxCost)
    ensures AmountOf(UsageOf(now, step.promptTokens, step.completionTokens, step.costNanousd), Key(now, m))
         <= MaxUse(m, maxTokens, maxCost)
  {
  }

  lemma PublishEnabled(s: System, i: nat)
    requires Enabled(s, Publish(i))
    ensures i < |s.recordings|
  {
  }

  /** The overspend bound: with at most `k` calls in flight at any time, each of limited
      use, no month's total ever exceeds its ceiling by more than the calls in flight can
      add, provided that no call is admitted in an exhausted month.  `AdmittedTooLate`
      says exactly when one is. */
  lemma OverspendBound(budgets: Budgets, steps: seq<Step>, p: Period, k: nat, maxTokens: nat, maxCost: nat)
    requires budgets.tokens >= 1 && budgets.costNanousd >= 1 && Limited(budgets, steps, k, maxTokens, maxCost)
    requires AdmitsInTime(budgets, steps)
    ensures var ledger := Execute(budgets, steps).books.ledger;
      && Sum(ledger, Key(p, Tokens)) <= budgets.tokens - 1 + k * maxTokens
      && Sum(ledger, Key(p, Cost)) <= budgets.costNanousd - 1 + k * maxCost
  {
    hide Sum, Execute, Limited, AdmitsInTime, Bookable;
    AlwaysWithin(budgets, steps, Tokens, k, maxTokens, maxCost);
    AlwaysWithin(budgets, steps, Cost, k, maxTokens, maxCost);
    var s := Execute(budgets, steps);
    var tokens, cost := Sum(s.books.ledger, Key(p, Tokens)), Sum(s.books.ledger, Key(p, Cost));
    if p <= s.now {
      RoomForFewer(tokens, Bookable(s, p), 0, budgets.tokens, k, maxTokens);
      RoomForFewer(cost, Bookable(s, p), 0, budgets.costNanousd, k, maxCost);
    }
    assert k * maxTokens >= 0 && k * maxCost >= 0;
  }

  /** In sound runs, so in orderly ones, the bound holds. */
  lemma SoundOverspendBound(budgets: Budgets, steps: seq<Step>, p: Period, k: nat, maxTokens: nat, maxCost: nat)
    requires budgets.tokens >= 1 && budgets.costNanousd >= 1 && Limited(budgets, steps, k, maxTokens, maxCost)
    requires Sound(budgets, steps)
    ensures var ledger := Execute(budgets, steps).books.ledger;
      && Sum(ledger, Key(p, Tokens)) <= budgets.tokens - 1 + k * maxTokens
      && Sum(ledger, Key(p, Cost)) <= budgets.costNanousd - 1 + k * maxCost
  {
    SoundRunsAdmitInTime(budgets, steps);
    OverspendBound(budgets, steps, p, k, maxTokens, maxCost);
  }

  // ---------- how far a drifted counter takes the spend ----------

  /** No recording is unfinished, `running` calls are running, both counters of the month
      are cached, and the token counter lags `drift` behind the ledger. */
  ghost predicate Quiet(budgets: Budgets, s: System, running: nat, counter: nat, drift: nat) {
    var tokens, cost := Key(s.now, Tokens), Key(s.now, Cost);
    && s.running == running && s.recordings == []
    && tokens in s.books.counters && s.books.counters[tokens] == counter
    && Sum(s.books.ledger, tokens) == counter + drift
    && cost in s.books.counters && s.books.counters[cost] < budgets.costNanousd
  }

  /** What a run may do and still keep its promises. */
  ghost predicate Lawful(budgets: Budgets, before: seq<Step>, steps: seq<Step>, k: nat, use: nat) {
    && (Limited(budgets, before, k, use, 0) ==> Limited(budgets, steps, k, use, 0))
    && (Sound(budgets, before) ==> Sound(budgets, steps))
  }

  /** Finish a call with `used` tokens. */
  function Finish(used: nat): seq<Step> {
    [Begin(used, 0, 0)] + [Publish(0)]
  }

  lemma OneMoreStep(budgets: Budgets, steps: seq<Step>, step: Step, k: nat, use: nat)
    requires Enabled(Execute(budgets, steps), step)
    requires InFlight(Apply(budgets, Execute(budgets, steps), step)) <= k
    requires UsesAtMost(step, use, 0) && !Spoils(Execute(budgets, steps), step)
    ensures Lawful(budgets, steps, steps + [step], k, use)
  {
    hide Enabled, Apply, Spoils, InFlight, UsesAtMost;
    ExecuteNext(budgets, steps, step);
    assert (steps + [step])[..|steps|] == steps;
  }

  lemma RushAdmit(budgets: Budgets, steps: seq<Step>, running: nat, counter: nat, drift: nat, k: nat, use: nat)
    requires Quiet(budgets, Execute(budgets, steps), running, counter, drift)
    requires running < k && counter < budgets.tokens
    ensures Quiet(budgets, Execute(budgets, steps + [Admit]), running + 1, counter, drift)
    ensures Execute(budgets, steps + [Admit]).now == Execute(budgets, steps).now
    ensures Lawful(budgets, steps, steps + [Admit], k, use)
  {
    hide Sum, Execute, Lawful;
    ExecuteNext(budgets, steps, Admit);
    OneMoreStep(budgets, steps, Admit, k, use);
  }

  lemma RushFinish(
    budgets: Budgets, steps: seq<Step>, running: nat, counter: nat, drift: nat, used: nat, k: nat, use: nat)
    requires Quiet(budgets, Execute(budgets, steps), running, counter, drift)
    requires 0 < running <= k && used <= use
    ensures Quiet(budgets, Execute(budgets, steps + Finish(used)), running - 1, counter + used, drift)
    ensures Execute(budgets, steps + Finish(used)).now == Execute(budgets, steps).now
    ensures Lawful(budgets, steps, steps + Finish(used), k, use)
  {
    hide Sum, Execute, Limited, Sound;
    var s, begin := Execute(budgets, steps), Begin(used, 0, 0);
    var begun := steps + [begin];
    ExecuteNext(budgets, steps, begin);
    OneMoreStep(budgets, steps, begin, k, use);
    assert steps + Finish(used) == begun + [Publish(0)];
    if used == 0 {
      IdleStep(budgets, begun, Publish(0), k, use);
    } else {
      RowAdds(s.books.ledger, Entry(s.now, used, 0));
      assert Execute(budgets, begun).recordings == [Recording(Entry(s.now, used, 0), None, false)];
      ExecuteNext(budgets, begun, Publish(0));
      OneMoreStep(budgets, begun, Publish(0), k, use);
    }
  }

  lemma IdleStep(budgets: Budgets, steps: seq<Step>, step: Step, k: nat, use: nat)
    requires !Enabled(Execute(budgets, steps), step) && !step.Begin?
    ensures Execute(budgets, steps + [step]) == Execute(budgets, steps)
    ensures Lawful(budgets, steps, steps + [step], k, use)
  {
    hide Enabled;
    assert (steps + [step])[..|steps|] == steps;
  }

  /** After `before`: spend up to one token below the ceiling, as the counter has it, then
      admit calls, and let some of them finish. */
  function Rush(budgets: Budgets, before: seq<Step>, counter: nat, admits: nat, finishes: nat, use: nat): seq<Step>
    requires counter < budgets.tokens
  {
    if finishes > 0 then Rush(budgets, before, counter, admits, finishes - 1, use) + Finish(use)
    else if admits > 0 then Rush(budgets, before, counter, admits - 1, 0, use) + [Admit]
    else before + [Admit] + Finish(budgets.tokens - 1 - counter)
  }

  /** From a quiet state, lawful calls take the month's total past the ceiling by what the
      calls in flight add and by what the counter lags behind: so the overspend bound is
      reached, and it is exceeded from there exactly when the counter lags behind. */
  lemma {:induction false} DriftAddsToOverspend(
    budgets: Budgets, before: seq<Step>, counter: nat, drift: nat, k: nat, admits: nat, finishes: nat, use: nat)
    requires Quiet(budgets, Execute(budgets, before), 0, counter, drift) && counter < budgets.tokens
    requires 1 <= k && finishes <= admits <= k && budgets.tokens - 1 - counter <= use
    ensures var steps := Rush(budgets, before, counter, admits, finishes, use);
      && Quiet(budgets, Execute(budgets, steps), admits - finishes, budgets.tokens - 1 + finishes * use, drift)
      && Execute(budgets, steps).now == Execute(budgets, before).now
      && Lawful(budgets, before, steps, k, use)
    decreases admits + finishes
  {
    hide Execute, Limited, Sound, Quiet;
    if finishes > 0 {
      DriftAddsToOverspend(budgets, before, counter, drift, k, admits, finishes - 1, use);
      RushFinish(budgets, Rush(budgets, before, counter, admits, finishes - 1, use), admits - finishes + 1,
        budgets.tokens - 1 + (finishes - 1) * use, drift, use, k, use);
      assert (finishes - 1) * use + use == finishes * use;
    } else if admits > 0 {
      DriftAddsToOverspend(budgets, before, counter, drift, k, admits - 1, 0, use);
      RushAdmit(budgets, Rush(budgets, before, counter, admits - 1, 0, use), admits - 1, budgets.tokens - 1, drift,
        k, use);
    } else {
      RushAdmit(budgets, before, 0, counter, drift, k, use);
      RushFinish(budgets, before + [Admit], 1, counter, drift, budgets.tokens - 1 - counter, k, use);
    }
  }

  /** Without drift: a sound run reaches the bound, so no smaller one holds. */
  lemma BoundReached(budgets: Budgets, k: nat, use: nat)
    requires budgets.tokens >= 1 && budgets.costNanousd >= 1 && 1 <= k && budgets.tokens - 1 <= use
    ensures var steps := Rush(budgets, [Query(0)], 0, k, k, use);
      && Limited(budgets, steps, k, use, 0) && Sound(budgets, steps)
      && Sum(Execute(budgets, steps).books.ledger, Key(0, Tokens)) == budgets.tokens - 1 + k * use
  {
    hide Execute, Rush, Limited, Sound;
    QuietStart(budgets, k, use);
    DriftAddsToOverspend(budgets, [Query(0)], 0, 0, k, k, k, use);
  }

  lemma QuietStart(budgets: Budgets, k: nat, use: nat)
    requires budgets.costNanousd >= 1
    ensures Quiet(budgets, Execute(budgets, [Query(0)]), 0, 0, 0) && Execute(budgets, [Query(0)]).now == 0
    ensures Limited(budgets, [Query(0)], k, use, 0) && Sound(budgets, [Query(0)])
  {
    assert [Query(0)][..0] == [];
  }

  /** Two calls that are recorded at once, right after the turn of the month. */
  const MONTH_TURN := [Admit, Admit, NextMonth, Begin(60, 0, 0), Begin(60, 0, 0), Publish(0), Publish(0)]

  /** Each of the two stores a total that lacks the other's row: the counter then says 60,
      the ledger 120, although nothing was evicted. */
  lemma OverlapSpoilsCounter(budgets: Budgets)
    requires budgets.tokens > 0 && budgets.costNanousd > 0
    ensures Quiet(budgets, Execute(budgets, MONTH_TURN), 0, 60, 60) && Execute(budgets, MONTH_TURN).now == 1
    ensures Limited(budgets, MONTH_TURN, 2, 60, 0) && !Sound(budgets, MONTH_TURN)
  {
    hide Execute, Limited, Sound;
    Turned(budgets);
    var s3, row := MONTH_TURN[..3], Entry(1, 60, 0);
    var s4, s5, s6 := s3 + [Begin(60, 0, 0)], s3 + [Begin(60, 0, 0)] + [Begin(60, 0, 0)], MONTH_TURN[..6];
    assert s6 == s5 + [Publish(0)] && MONTH_TURN == s6 + [Publish(0)];
    var seeded := Recording(row, Some(Totals(60, 0)), false);
    FirstRow(row);
    ExecuteNext(budgets, s3, Begin(60, 0, 0));
    NextLimited(budgets, s3, Begin(60, 0, 0));
    ExecuteNext(budgets, s4, Begin(60, 0, 0));
    NextLimited(budgets, s4, Begin(60, 0, 0));
    assert Execute(budgets, s5).recordings == [seeded, seeded];
    ExecuteNext(budgets, s5, Publish(0));
    NextLimited(budgets, s5, Publish(0));
    assert Execute(budgets, s6).recordings == [seeded.(overtaken := true)];
    ExecuteNext(budgets, s6, Publish(0));
    NextLimited(budgets, s6, Publish(0));
    SpoiledRun(budgets, s6, Publish(0));
    assert Execute(budgets, MONTH_TURN).books.ledger == [row] + [row];
    SumNext([row], row, Key(1, Tokens));
  }

  lemma Turned(budgets: Budgets)
    requires budgets.tokens > 0 && budgets.costNanousd > 0
    ensures var s := Execute(budgets, MONTH_TURN[..3]);
      && s.now == 1 && s.running == 2 && s.recordings == [] && s.books.ledger == []
      && forall m :: Key(1, m) !in s.books.counters
    ensures Limited(budgets, MONTH_TURN[..3], 2, 60, 0)
  {
    hide Execute, Limited;
    var s1, s2 := [Admit], [Admit, Admit];
    assert s1 == [] + [Admit] && s2 == s1 + [Admit] && MONTH_TURN[..3] == s2 + [NextMonth];
    NothingRun(budgets);
    ExecuteNext(budgets, [], Admit);
    NextLimited(budgets, [], Admit);
    ExecuteNext(budgets, s1, Admit);
    NextLimited(budgets, s1, Admit);
    ExecuteNext(budgets, s2, NextMonth);
    NextLimited(budgets, s2, NextMonth);
  }

  lemma NothingRun(budgets: Budgets)
    ensures Execute(budgets, []) == START && Limited(budgets, [], 2, 60, 0)
  {
  }

  lemma FirstRow(row: Entry)
    ensures forall key :: Sum([], key) == 0 && Sum([] + [row], key) == Sum([row], key) == AmountOf(row, key)
  {
    RowAdds([], row);
    assert [] + [row] == [row];
  }

  lemma NextLimited(budgets: Budgets, steps: seq<Step>, step: Step)
    requires Limited(budgets, steps, 2, 60, 0) && InFlight(Execute(budgets, steps + [step])) <= 2
    requires UsesAtMost(step, 60, 0)
    ensures Limited(budgets, steps + [step], 2, 60, 0)
  {
    hide Execute;
    assert (steps + [step])[..|steps|] == steps;
  }

  lemma SpoiledRun(budgets: Budgets, steps: seq<Step>, step: Step)
    requires Enabled(Execute(budgets, steps), step) && Spoils(Execute(budgets, steps), step)
    ensures !Sound(budgets, steps + [step])
  {
    assert (steps + [step])[..|steps|] == steps;
  }

  /** So the overspend bound does not hold for all runs of the code: with a budget of 100,
      two calls in flight and 60 tokens each, 279 tokens can be spent, not 219. */
  lemma OverspendPossible()
    ensures var budgets := Budgets(100, 5000000, 5000000000, 80);
      var steps := Rush(budgets, MONTH_TURN, 60, 2, 2, 60);
      && Limited(budgets, steps, 2, 60, 0)
      && Sum(Execute(budgets, steps).books.ledger, Key(1, Tokens)) == 279 > 100 - 1 + 2 * 60
  {
    hide Execute, Rush, Limited, Sound;
    var budgets := Budgets(100, 5000000, 5000000000, 80);
    OverlapSpoilsCounter(budgets);
    DriftAddsToOverspend(budgets, MONTH_TURN, 60, 60, 2, 2, 2, 60);
  }

  /** It would not be enough that no recording starts with a counter missing while another
      one of its month is unfinished: here the first starts alone, a read caches the
      counters, and the second starts with both of them there, and overtakes the first. */
  lemma MissingCounterAloneIsNotEnough(b: Books, p: Period, first: Entry, second: Entry)
    requires Agrees(b) && !BothCached(b, p) && first.period == second.period == p
    requires first.tokens > 0 && second.tokens > 0
    ensures var seeding := Begun(b, first);
      var cached := AfterBurn(b, p);
      var relying := Begun(cached, second);
      && seeding.seed.Some? && BothCached(cached, p) && relying.seed == None
      && Agrees(Published(cached, relying))
      && !Agrees(Published(Published(cached, relying), seeding))
  {
    hide Sum, Begun, Published, Faulty;
    var cached := AfterBurn(b, p);
    AgreementKept(b, p, first);
    BegunTracked(b, first);
    BegunTracked(cached, second);
    PublishExactly(cached, Begun(cached, second));
    SeedingExactly(b, first);
    SeedingExactly(cached, second);
    var published := Published(cached, Begun(cached, second));
    PublishedLedger(cached, Begun(cached, second));
    var seeding := Begun(b, first);
    RowOvertakes(b.ledger, second, seeding);
    PublishExactly(published, seeding.(overtaken := true));
    SameWrites(published, seeding);
    assert Faulty(published, seeding.(overtaken := true)) by { OvertakenIsFaulty(published, seeding); }
  }

  lemma SeedingExactly(b: Books, e: Entry)
    ensures Begun(b, e).entry == e && (Begun(b, e).seed.Some? <==> !BothCached(b, e.period))
  {
    hide Sum;
  }

  lemma SameWrites(b: Books, r: Recording)
    ensures Published(b, r) == Published(b, r.(overtaken := true))
  {
  }

  lemma OvertakenIsFaulty(b: Books, r: Recording)
    requires r.seed.Some?
    ensures Faulty(b, r.(overtaken := true))
  {
  }

  // ---------- when alerts come ----------

  lemma RoundReaches(x: real, half: int)
    ensures RoundHalfEven(x) >= 2 * half <==> x >= (2 * half) as real - 0.5
  {
    var even := 2 * half;
    if x >= even as real - 0.5 {
      RoundMonotone(even as real - 0.5, x);
      assert (even as real - 0.5).Floor == even - 1;
    } else if RoundHalfEven(x) >= even {
      RoundWithin(x);
    }
  }

  /** Two decimals are kept, so an alert comes exactly when the utilization is within
      half a hundredth of a percent of its mark. */
  lemma AlertsExactly(tokens: nat, cost: nat, budgets: Budgets, mark: nat)
    requires budgets.tokens > 0 && budgets.costNanousd > 0
    ensures Utilization(tokens, cost, budgets) >= mark as real <==>
              || 20000 * tokens >= (200 * mark - 1) * budgets.tokens
              || 20000 * cost >= (200 * mark - 1) * budgets.costNanousd
  {
    hide RoundHalfEven, Percentage;
    PercentageReaches(tokens, budgets.tokens, mark);
    PercentageReaches(cost, budgets.costNanousd, mark);
    var larger := Max(Percentage(tokens, budgets.tokens), Percentage(cost, budgets.costNanousd));
    RoundReaches(larger * 100.0, 50 * mark);
    Hundredths(RoundHalfEven(larger * 100.0), larger, mark);
  }

  lemma PercentageReaches(amount: nat, budget: nat, mark: nat)
    requires budget > 0
    ensures Percentage(amount, budget) >= mark as real - 0.005 <==> 20000 * amount >= (200 * mark - 1) * budget
  {
    var share, wanted := amount as real / budget as real, 200 * mark - 1;
    assert share * budget as real == amount as real;
    assert Percentage(amount, budget) >= mark as real - 0.005 <==> 20000.0 * share - wanted as real >= 0.0;
    SignKept(20000.0 * share - wanted as real, budget as real);
    assert (20000.0 * share - wanted as real) * budget as real == 20000.0 * amount as real - (wanted * budget) as real;
  }

  lemma SignKept(x: real, factor: real)
    requires factor > 0.0
    ensures x >= 0.0 <==> x * factor >= 0.0
  {
  }

  lemma Hundredths(rounded: int, x: real, mark: nat)
    ensures rounded as real / 100.0 >= mark as real <==> rounded >= 100 * mark
    ensures x * 100.0 >= (100 * mark) as real - 0.5 <==> x >= mark as real - 0.005
  {
    assert (100 * mark) as real == 100.0 * mark as real;
  }

  /** Nothing is refused unannounced: totals that exhaust a budget raise both alerts. */
  lemma ExhaustionIsAlerted(tokens: nat, cost: nat, budgets: Budgets, period: Period)
    requires budgets.tokens > 0 && budgets.costNanousd > 0 && budgets.alertPct <= 100
    requires tokens >= budgets.tokens || cost >= budgets.costNanousd
    ensures var utilization := Utilization(tokens, cost, budgets);
      && Calls(ThresholdReached(period), period, utilization, budgets)
      && Calls(BudgetExceeded(period), period, utilization, budgets)
  {
    hide Utilization;
    AlertsExactly(tokens, cost, budgets, 100);
  }

  /** But the "exceeded" alert can come early: at 99995 of 100000 tokens it is sent,
      while calls are still admitted. */
  lemma ExceededAlertCanBeEarly()
    ensures var budgets := Budgets(100000, 5000000, 5000000000, 80);
      Calls(BudgetExceeded(0), 0, Utilization(99995, 0, budgets), budgets) && 99995 < budgets.tokens
  {
    AlertsExactly(99995, 0, Budgets(100000, 5000000, 5000000000, 80), 100);
  }
}
