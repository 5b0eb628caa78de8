/** A relay pass as the code runs it, one loop over one batch, is one of the runs
    of the outbox protocol: so what holds over all runs of the protocol holds for
    systems of such passes. */
module OutboxRefinement {
  import opened Arithmetic
  import opened Outbox
  import opened OutboxTable
  import opened Sequences
  import opened Wrappers

  /** What a pass at time `now` does: the claims, one ticket each. */
  function ClaimSteps(ids: seq<EventId>, now: int): seq<Step> {
    if ids == [] then [Reclaim(now)] else ClaimSteps(ids[..|ids| - 1], now) + [Claim(ids[|ids| - 1], now)]
  }

  function DispatchStep(row: Row, dispatchReturns: bool, ticket: nat): Step {
    if Succeeds(row, dispatchReturns) then DispatchReturns(ticket) else DispatchRaises(ticket)
  }

  /** When the event before the one at index `n` was settled. */
  function TimeAt(start: int, ids: seq<EventId>, n: nat, pass: Pass): int
    requires n <= |ids|
  {
    if n == 0 then start else pass.settledAt(ids[n - 1])
  }

  /** The events are settled one after the other. */
  ghost predicate InTime(start: int, ids: seq<EventId>, pass: Pass) {
    forall n :: 0 <= n < |ids| ==> TimeAt(start, ids, n, pass) <= pass.settledAt(ids[n])
  }

  /** The claims, and then for each of the first `n` events its dispatch and, when time has
      passed, its settlement. */
  function PassSteps(start: System, ids: seq<EventId>, n: nat, pass: Pass): seq<Step>
    requires n <= |ids| && (forall id :: id in ids ==> id in start.rows) && InTime(start.now, ids, pass)
  {
    if n == 0 then ClaimSteps(ids, pass.now)
    else PassSteps(start, ids, n - 1, pass) + EventSteps(start, ids, n - 1, pass)
  }

  function EventSteps(start: System, ids: seq<EventId>, n: nat, pass: Pass): seq<Step>
    requires n < |ids| && (forall id :: id in ids ==> id in start.rows) && InTime(start.now, ids, pass)
  {
    assert ids[n] in ids;
    var t := start.tickets + n;
    [DispatchStep(start.rows[ids[n]], pass.succeeds(ids[n]), t)]
    + [Tick(pass.settledAt(ids[n]) - TimeAt(start.now, ids, n, pass))]
    + [Settle(t)]
  }

  ghost predicate RowsClaimed(start: map<EventId, Row>, rows: map<EventId, Row>, done: seq<EventId>, now: int) {
    && rows.Keys == start.Keys
    && (forall id :: id in start && id in done ==> rows[id] == Claimed(Reclaimed(start[id], now), now))
    && (forall id :: id in start && id !in done ==> rows[id] == Reclaimed(start[id], now))
  }

  lemma RowsClaimedNext(start: map<EventId, Row>, rows: map<EventId, Row>, done: seq<EventId>, id: EventId, now: int)
    requires RowsClaimed(start, rows, done, now) && id in start && id !in done
    ensures id in rows && rows[id] == Reclaimed(start[id], now)
    ensures RowsClaimed(start, rows[id := Claimed(rows[id], now)], done + [id], now)
  {
    hide Claimed, Reclaimed;
  }

  /** The table and the tickets once the first `n` of the events are claimed. */
  ghost predicate ClaimedUpTo(start: System, s: System, ids: seq<EventId>, n: nat, now: int)
    requires n <= |ids|
  {
    && s.now == start.now && s.tickets == start.tickets + n
    && RowsClaimed(start.rows, s.rows, ids[..n], now)
    && (forall j :: 0 <= j < n && ids[j] in start.rows ==> Holds(start, s, ids, j, now))
  }

  ghost predicate Holds(start: System, s: System, ids: seq<EventId>, j: nat, now: int)
    requires j < |ids| && ids[j] in start.rows
  {
    && start.tickets + j in s.holds
    && s.holds[start.tickets + j] ==
       Hold(ids[j], start.rows[ids[j]].attempts + 1, now + STALE_PROCESSING_SECONDS, Dispatching)
  }

  /** Events that a pass may claim. */
  ghost predicate MayClaim(start: System, ids: seq<EventId>, now: int) {
    && now <= start.now && Distinct(ids)
    && forall id :: id in ids ==> id in start.rows && Due(Reclaimed(start.rows[id], now), now)
  }

  lemma {:induction false} ClaimsRun(before: seq<Step>, ids: seq<EventId>, now: int)
    requires MayClaim(Execute(before), ids, now)
    ensures ClaimedUpTo(Execute(before), Execute(before + ClaimSteps(ids, now)), ids, |ids|, now)
  {
    hide Execute, Enabled, Apply, MayClaim, ClaimedUpTo;
    if ids == [] {
      ReclaimRuns(before, now) by { assert now <= Execute(before).now by { MayClaimFacts(Execute(before), ids, now); } }
      assert ClaimSteps(ids, now) == [Reclaim(now)];
    } else {
      var init, last := ids[..|ids| - 1], ids[|ids| - 1];
      MayClaimFacts(Execute(before), ids, now);
      ClaimsRun(before, init, now);
      ClaimRuns(Execute(before), before + ClaimSteps(init, now), ids, now);
      assert before + ClaimSteps(ids, now) == before + ClaimSteps(init, now) + [Claim(last, now)];
    }
  }

  lemma MayClaimFacts(start: System, ids: seq<EventId>, now: int)
    requires MayClaim(start, ids, now)
    ensures now <= start.now
    ensures ids != [] ==> MayClaim(start, ids[..|ids| - 1], now)
  {
  }

  lemma ReclaimRuns(before: seq<Step>, now: int)
    requires now <= Execute(before).now
    ensures ClaimedUpTo(Execute(before), Execute(before + [Reclaim(now)]), [], 0, now)
  {
    hide Execute;
    ExecuteNext(before, Reclaim(now));
  }

  lemma ClaimRuns(start: System, steps: seq<Step>, ids: seq<EventId>, now: int)
    requires ids != [] && MayClaim(start, ids, now)
    requires ClaimedUpTo(start, Execute(steps), ids[..|ids| - 1], |ids| - 1, now)
    ensures ClaimedUpTo(start, Execute(steps + [Claim(ids[|ids| - 1], now)]), ids, |ids|, now)
  {
    hide Execute, Backoff, RowsClaimed, Reclaimed, Claimed;
    var n := |ids| - 1;
    var s, last := Execute(steps), ids[n];
    assert last in ids && last !in ids[..n];
    assert ids[..n][..n] == ids[..n] && ids[..n + 1] == ids == ids[..n] + [last];
    RowsClaimedNext(start.rows, s.rows, ids[..n], last, now);
    SameAttempts(start.rows[last], now);
    ExecuteNext(steps, Claim(last, now));
    forall j | 0 <= j < n && ids[j] in start.rows
      ensures Holds(start, Execute(steps + [Claim(last, now)]), ids, j, now)
    {
      assert Holds(start, s, ids[..n], j, now);
    }
  }

  lemma SameAttempts(row: Row, now: int)
    ensures Reclaimed(row, now).attempts == row.attempts
  {
  }

  /** Where a pass stands when its first `n` events are settled. */
  ghost predicate PassAt(start: System, s: System, ids: seq<EventId>, n: nat, pass: Pass)
    requires n <= |ids|
  {
    && s.now == TimeAt(start.now, ids, n, pass)
    && SettledUpTo(start.rows, s.rows, ids, n, pass)
    && forall j :: n <= j < |ids| && ids[j] in start.rows ==> Holds(start, s, ids, j, pass.now)
  }

  lemma PassBegins(start: System, s: System, ids: seq<EventId>, pass: Pass)
    requires MayClaim(start, ids, pass.now) && ClaimedUpTo(start, s, ids, |ids|, pass.now)
    ensures PassAt(start, s, ids, 0, pass)
  {
    hide Backoff, Holds, Claimed, Reclaimed;
    assert ids[..|ids|] == ids;
  }

  /** Three steps settle an event that is held under ticket `t`. */
  lemma EventSettles(
    steps: seq<Step>, id: EventId, attempt: nat, leaseEnd: int, t: nat, ok: bool, settledAt: int)
    requires var s := Execute(steps);
      && t in s.holds && s.holds[t] == Hold(id, attempt, leaseEnd, Dispatching) && attempt >= 1
      && id in s.rows && (ok ==> !s.rows[id].topic.Unsupported?) && s.now <= settledAt
    ensures var s := Execute(steps);
      var dispatch := if ok then DispatchReturns(t) else DispatchRaises(t);
      var after := Execute(steps + [dispatch] + [Tick(settledAt - s.now)] + [Settle(t)]);
      && after.now == settledAt
      && after.rows == s.rows[id := if ok then SettledOk(s.rows[id], settledAt)
                                    else SettledError(s.rows[id], attempt, settledAt)]
      && forall u :: u in s.holds && u != t ==> u in after.holds && after.holds[u] == s.holds[u]
  {
    hide Execute, Backoff;
    var s := Execute(steps);
    var dispatch := if ok then DispatchReturns(t) else DispatchRaises(t);
    ExecuteNext(steps, dispatch);
    ExecuteNext(steps + [dispatch], Tick(settledAt - s.now));
    ExecuteNext(steps + [dispatch] + [Tick(settledAt - s.now)], Settle(t));
  }

  lemma EventRuns(start: System, steps: seq<Step>, ids: seq<EventId>, n: nat, pass: Pass)
    requires n < |ids| && (forall id :: id in ids ==> id in start.rows) && InTime(start.now, ids, pass)
    requires PassAt(start, Execute(steps), ids, n, pass)
    ensures PassAt(start, Execute(steps + EventSteps(start, ids, n, pass)), ids, n + 1, pass)
  {
    hide Execute, Backoff, SettledUpTo, SettledOk, SettledError;
    var s, t, id := Execute(steps), start.tickets + n, ids[n];
    var ok, after := Succeeds(start.rows[id], pass.succeeds(id)), Execute(steps + EventSteps(start, ids, n, pass));
    SettleNext(start.rows, s.rows, ids, n, pass);
    RowBeingSettled(start.rows, s.rows, ids, n, pass);
    assert Holds(start, s, ids, n, pass.now);
    EventSettles(
      steps, id, start.rows[id].attempts + 1, pass.now + STALE_PROCESSING_SECONDS, t, ok, pass.settledAt(id));
    assert steps + EventSteps(start, ids, n, pass)
        == steps + [DispatchStep(start.rows[id], pass.succeeds(id), t)]
           + [Tick(pass.settledAt(id) - s.now)] + [Settle(t)];
    StillHeldLater(start, s, after, ids, n, pass);
  }

  lemma StillHeldLater(start: System, s: System, after: System, ids: seq<EventId>, n: nat, pass: Pass)
    requires n < |ids| && PassAt(start, s, ids, n, pass)
    requires forall u :: u in s.holds && u != start.tickets + n ==> u in after.holds && after.holds[u] == s.holds[u]
    ensures forall j :: n + 1 <= j < |ids| && ids[j] in start.rows ==> Holds(start, after, ids, j, pass.now)
  {
    hide SettledUpTo;
    forall j | n + 1 <= j < |ids| && ids[j] in start.rows ensures Holds(start, after, ids, j, pass.now) {
      assert Holds(start, s, ids, j, pass.now);
    }
  }

  lemma RowBeingSettled(start: map<EventId, Row>, rows: map<EventId, Row>, ids: seq<EventId>, n: nat, pass: Pass)
    requires SettledUpTo(start, rows, ids, n, pass) && n < |ids|
    ensures ids[n] in start && ids[n] in rows
    ensures rows[ids[n]].attempts == start[ids[n]].attempts + 1 && rows[ids[n]].topic == start[ids[n]].topic
  {
    assert ids[n] in ids;
  }

  lemma {:induction false} PassRuns(before: seq<Step>, ids: seq<EventId>, n: nat, pass: Pass)
    requires n <= |ids| && MayClaim(Execute(before), ids, pass.now)
    requires (forall id :: id in ids ==> id in Execute(before).rows) && InTime(Execute(before).now, ids, pass)
    ensures PassAt(Execute(before), Execute(before + PassSteps(Execute(before), ids, n, pass)), ids, n, pass)
  {
    hide Execute, PassAt, MayClaim, ClaimSteps, EventSteps, InTime;
    var start := Execute(before);
    if n == 0 {
      ClaimsRun(before, ids, pass.now);
      PassBegins(start, Execute(before + ClaimSteps(ids, pass.now)), ids, pass);
    } else {
      PassRuns(before, ids, n - 1, pass);
      var steps := before + PassSteps(start, ids, n - 1, pass);
      EventRuns(start, steps, ids, n - 1, pass);
      assert before + PassSteps(start, ids, n, pass) == steps + EventSteps(start, ids, n - 1, pass);
    }
  }

  /** The table that `DrainBatch` leaves behind is the one that its steps leave behind
      as a run of the protocol, from any reachable state. */
  lemma DrainBatchIsARun(before: seq<Step>, order: seq<EventId>, batchSize: int, only: Option<EventId>, pass: Pass)
    requires pass.now <= Execute(before).now && Distinct(order)
    requires InTime(Execute(before).now,
               Take(Claimable(Execute(before).rows, order, pass.now, only), MaxInt(1, batchSize)), pass)
    ensures var start := Execute(before);
      var claimed := Take(Claimable(start.rows, order, pass.now, only), MaxInt(1, batchSize));
      && (forall id :: id in claimed ==> id in start.rows)
      && var after := Execute(before + PassSteps(start, claimed, |claimed|, pass));
      && after.rows.Keys == start.rows.Keys
      && forall id :: id in after.rows ==>
           after.rows[id] == if id in claimed then DrainedBy(start.rows[id], pass, id)
                             else Reclaimed(start.rows[id], pass.now)
  {
    hide Execute, Claimable, Take, DrainedBy, Reclaimed, PassSteps, SettledUpTo, Due, InTime;
    var start := Execute(before);
    var claimed := Take(Claimable(start.rows, order, pass.now, only), MaxInt(1, batchSize));
    BatchFacts(start.rows, order, pass.now, only, MaxInt(1, batchSize));
    PassRuns(before, claimed, |claimed|, pass);
    var after := Execute(before + PassSteps(start, claimed, |claimed|, pass));
    AllSettled(start.rows, after.rows, claimed, pass);
  }
}
