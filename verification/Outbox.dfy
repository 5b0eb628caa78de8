/** The transactional outbox of apps/core/outbox.py as a protocol between
    workers that claim, dispatch, settle, crash, replay and prune in any order.

    Each database statement or transaction is one atomic step.  A drain call
    takes its time stamp first, so its reclaim and claim steps may run later than
    the time they use.  A batch claim is a series of single claims, since claims of
    different rows commute. */
module Outbox {
  import opened Arithmetic
  import opened Wrappers

  const MAX_ATTEMPTS := 10
  const STALE_PROCESSING_SECONDS := 300

  type EventId = string

  datatype Topic = Webhook | PubSub | Unsupported(name: string)

  datatype Status = Pending | Processing | Dispatched | Failed

  datatype Row = Row(topic: Topic, status: Status, attempts: nat, nextAttemptAt: int, dispatchedAt: Option<int>)

  /** What a worker is doing with an event it has claimed. */
  datatype Stage = Dispatching | Returned | Raised

  datatype Hold = Hold(event: EventId, attempt: nat, leaseEnd: int, stage: Stage)

  // ---------- row updates ----------

  function Enqueued(topic: Topic, now: int): Row {
    Row(topic, Pending, 0, now, None)
  }

  predicate Stale(row: Row, at: int) {
    row.status == Processing && row.nextAttemptAt <= at
  }

  predicate Due(row: Row, at: int) {
    row.status == Pending && row.nextAttemptAt <= at
  }

  function Reclaimed(row: Row, at: int): Row {
    if Stale(row, at) then row.(status := Pending) else row
  }

  function Claimed(row: Row, at: int): Row {
    row.(status := Processing, attempts := row.attempts + 1, nextAttemptAt := at + STALE_PROCESSING_SECONDS)
  }

  /** Seconds to wait after a failed attempt: at least ten, doubling, at most five
      minutes. */
  function Backoff(attempt: nat): (seconds: nat)
    requires attempt >= 1
    ensures 10 <= seconds <= 300
    ensures attempt >= 6 ==> seconds == 300
  {
    var exponent := if attempt < 6 then attempt else 6;
    assert Pow2(1) == 2 && Pow2(2) == 4 && Pow2(3) == 8 && Pow2(4) == 16 && Pow2(5) == 32 && Pow2(6) == 64;
    if 5 * Pow2(exponent) < 300 then 5 * Pow2(exponent) else 300
  }

  /** The delay starts at ten seconds and doubles with every attempt until it would exceed
      five minutes. */
  lemma BackoffDoubles(attempt: nat)
    requires attempt >= 1
    ensures Backoff(1) == 10
    ensures Backoff(attempt + 1) == if 2 * Backoff(attempt) < 300 then 2 * Backoff(attempt) else 300
  {
    assert Pow2(1) == 2 && Pow2(2) == 4 && Pow2(3) == 8 && Pow2(4) == 16 && Pow2(5) == 32 && Pow2(6) == 64;
    if attempt < 6 {
      assert Pow2(attempt + 1) == 2 * Pow2(attempt);
    }
  }

  /** Settlement goes by the event's identifier alone: it does not look at the
      status that the row has by then. */
  function SettledOk(row: Row, now: int): Row {
    row.(status := Dispatched, dispatchedAt := Some(now))
  }

  function SettledError(row: Row, attempt: nat, now: int): Row
    requires attempt >= 1
  {
    if attempt >= MAX_ATTEMPTS then row.(status := Failed)
    else row.(status := Pending, nextAttemptAt := now + Backoff(attempt))
  }

  function Rearmed(row: Row, now: int): Row {
    row.(status := Pending, attempts := 0, nextAttemptAt := now, dispatchedAt := None)
  }

  predicate Prunable(row: Row, cutoff: int) {
    row.status == Dispatched && row.dispatchedAt.Some? && row.dispatchedAt.value <= cutoff
  }

  // ---------- the system ----------

  /** `rows` is the table and `holds` the live claims, by ticket.  `loaded` are the
      events that administrators have loaded as failed and may still replay, once for
      each load, and `selected` those that a pruning pass has picked and may still delete.  The
      last four fields are history: events ever committed, events whose dispatch
      call returned, and per event, since its last replay, lost and made claims. */
  datatype System = System(
    now: int,
    rows: map<EventId, Row>,
    holds: map<nat, Hold>,
    tickets: nat,
    loaded: multiset<EventId>,
    selected: set<EventId>,
    committed: set<EventId>,
    delivered: set<EventId>,
    crashes: map<EventId, nat>,
    claims: map<EventId, nat>)

  const START := System(0, map[], map[], 0, multiset{}, {}, {}, {}, map[], map[])

  datatype Step =
    | Tick(seconds: nat)
    | Enqueue(id: EventId, topic: Topic, hasOrganization: bool)
    | Reclaim(at: int)
    | Claim(id: EventId, at: int)
    | DispatchReturns(ticket: nat)
    | DispatchRaises(ticket: nat)
    | Settle(ticket: nat)
    | Crash(ticket: nat)
    | LoadFailed(id: EventId)
    | Replay(id: EventId)
    | PruneSelect(id: EventId, cutoff: int)
    | PruneDelete(id: EventId)

  predicate Enabled(s: System, step: Step) {
    match step
    case Tick(_) => true
    case Enqueue(id, _, _) => id !in s.committed
    case Reclaim(at) => at <= s.now
    case Claim(id, at) => at <= s.now && id in s.rows && Due(s.rows[id], at)
    case DispatchReturns(t) =>
      && t in s.holds && s.holds[t].stage == Dispatching
      && (s.holds[t].event in s.rows ==> !s.rows[s.holds[t].event].topic.Unsupported?)
    case DispatchRaises(t) => t in s.holds && s.holds[t].stage == Dispatching
    case Settle(t) => t in s.holds && s.holds[t].stage != Dispatching && s.holds[t].attempt >= 1
    case Crash(t) => t in s.holds
    case LoadFailed(id) => id in s.rows && s.rows[id].status == Failed
    case Replay(id) => id in s.loaded
    case PruneSelect(id, cutoff) => cutoff <= s.now && id in s.rows && Prunable(s.rows[id], cutoff)
    case PruneDelete(id) => id in s.selected
  }

  function Count(counts: map<EventId, nat>, id: EventId): nat {
    if id in counts then counts[id] else 0
  }

  function Apply(s: System, step: Step): System
    requires Enabled(s, step)
  {
    match step
    case Tick(seconds) => s.(now := s.now + seconds)
    case Enqueue(id, topic, hasOrganization) =>
      if topic == Webhook && !hasOrganization then s
      else s.(rows := s.rows[id := Enqueued(topic, s.now)], committed := s.committed + {id})
    case Reclaim(at) => s.(rows := map id | id in s.rows :: Reclaimed(s.rows[id], at))
    case Claim(id, at) =>
      var row := s.rows[id];
      s.(rows := s.rows[id := Claimed(row, at)],
         holds := s.holds[s.tickets := Hold(id, row.attempts + 1, at + STALE_PROCESSING_SECONDS, Dispatching)],
         tickets := s.tickets + 1,
         claims := s.claims[id := Count(s.claims, id) + 1])
    case DispatchReturns(t) =>
      s.(holds := s.holds[t := s.holds[t].(stage := Returned)], delivered := s.delivered + {s.holds[t].event})
    case DispatchRaises(t) => s.(holds := s.holds[t := s.holds[t].(stage := Raised)])
    case Settle(t) =>
      var hold := s.holds[t];
      var settled := s.(holds := s.holds - {t});
      if hold.event !in s.rows then settled
      else
        var row := s.rows[hold.event];
        settled.(rows := s.rows[hold.event :=
          if hold.stage == Returned then SettledOk(row, s.now) else SettledError(row, hold.attempt, s.now)])
    case Crash(t) =>
      var id := s.holds[t].event;
      s.(holds := s.holds - {t}, crashes := s.crashes[id := Count(s.crashes, id) + 1])
    case LoadFailed(id) => s.(loaded := s.loaded + multiset{id})
    case Replay(id) =>
      var replayed := s.(loaded := s.loaded - multiset{id});
      if id !in s.rows then replayed
      else
        replayed.(rows := s.rows[id := Rearmed(s.rows[id], s.now)],
                  crashes := s.crashes - {id}, claims := s.claims - {id})
    case PruneSelect(id, _) => s.(selected := s.selected + {id})
    case PruneDelete(id) =>
      if id in s.rows && s.rows[id].status == Dispatched then s.(rows := s.rows - {id}) else s
  }

  /** The state after some steps; a step that is not possible changes nothing. */
  function Execute(steps: seq<Step>): System {
    if steps == [] then START
    else
      var s, step := Execute(steps[..|steps| - 1]), steps[|steps| - 1];
      if Enabled(s, step) then Apply(s, step) else s
  }

  // ---------- at-least-once delivery, over every interleaving ----------

  ghost predicate DeliveryKept(s: System) {
    && s.rows.Keys <= s.committed
    && (forall id :: id in s.committed && id !in s.rows ==> id in s.delivered)
    && (forall id :: id in s.rows && s.rows[id].status == Dispatched ==> id in s.delivered)
    && (forall t :: t in s.holds && s.holds[t].stage == Returned ==> s.holds[t].event in s.delivered)
  }

  lemma DeliveryOfHold(s: System, step: Step, t: nat)
    requires Enabled(s, step) && t in Apply(s, step).holds && Apply(s, step).holds[t].stage == Returned
    requires t in s.holds && s.holds[t].stage == Returned ==> s.holds[t].event in s.delivered
    ensures Apply(s, step).holds[t].event in Apply(s, step).delivered
  {
    hide Backoff;
  }

  /** An event with a row whose dispatch is still to come. */
  predicate Outstanding(s: System, id: EventId) {
    id in s.rows && s.rows[id].status != Dispatched
  }

  /** Only a settlement sets a row to dispatched, and only a dispatched row goes. */
  lemma DeliveryOfEvent(s: System, step: Step, id: EventId)
    requires Enabled(s, step) && (id in s.committed ==> Outstanding(s, id) || id in s.delivered)
    requires step.Settle? && s.holds[step.ticket].stage == Returned ==> s.holds[step.ticket].event in s.delivered
    ensures id in Apply(s, step).committed ==> Outstanding(Apply(s, step), id) || id in Apply(s, step).delivered
  {
    hide Backoff;
  }

  lemma RowsStayCommitted(s: System, step: Step)
    requires Enabled(s, step) && s.rows.Keys <= s.committed
    ensures Apply(s, step).rows.Keys <= Apply(s, step).committed
  {
  }

  lemma StepKeepsDelivery(s: System, step: Step)
    requires Enabled(s, step) && DeliveryKept(s)
    ensures DeliveryKept(Apply(s, step))
  {
    hide Apply;
    var after := Apply(s, step);
    forall t | t in after.holds && after.holds[t].stage == Returned ensures after.holds[t].event in after.delivered {
      DeliveryOfHold(s, step, t);
    }
    RowsStayCommitted(s, step);
    forall id | id in after.committed ensures Outstanding(after, id) || id in after.delivered {
      DeliveryOfEvent(s, step, id);
    }
  }

  /** An event is dispatched, or gone from the table, only if a dispatch call for
      it has returned normally: over every interleaving, with crashes, late
      settlements and stale replays. */
  lemma {:induction false} AtLeastOnce(steps: seq<Step>)
    ensures DeliveryKept(Execute(steps))
    ensures var s := Execute(steps);
      forall id :: id in s.committed && (id !in s.rows || s.rows[id].status == Dispatched) ==> id in s.delivered
  {
    if steps != [] {
      var before, step := steps[..|steps| - 1], steps[|steps| - 1];
      AtLeastOnce(before);
      if Enabled(Execute(before), step) {
        StepKeepsDelivery(Execute(before), step);
      }
    }
  }

  /** The step at index `j` selects an event for pruning: its row was dispatched no later
      than the cutoff, which is not in the future. */
  ghost predicate SelectsAged(steps: seq<Step>, j: nat, id: EventId)
    requires j < |steps|
  {
    var s := Execute(steps[..j]);
    && steps[j].PruneSelect? && steps[j].id == id && steps[j].cutoff <= s.now
    && id in s.rows && s.rows[id].status == Dispatched
    && s.rows[id].dispatchedAt.Some? && s.rows[id].dispatchedAt.value <= steps[j].cutoff
  }

  /** What is selected has been selected by such a step. */
  lemma {:induction false} SelectedByStep(steps: seq<Step>, id: EventId) returns (j: nat)
    requires id in Execute(steps).selected
    ensures j < |steps| && SelectsAged(steps, j, id)
  {
    hide Apply, Enabled;
    if steps == [] {
      NothingSelected();
    }
    var n := |steps| - 1;
    var before := steps[..n];
    if id in Execute(before).selected {
      j := SelectedByStep(before, id);
      assert before[..j] == steps[..j];
    } else {
      SelectedJustNow(Execute(before), steps[n], id);
      j := n;
    }
  }

  lemma NothingSelected()
    ensures Execute([]).selected == {}
  {
  }

  lemma SelectedJustNow(s: System, step: Step, id: EventId)
    requires Enabled(s, step) && id in Apply(s, step).selected && id !in s.selected
    ensures step.PruneSelect? && step.id == id && step.cutoff <= s.now
    ensures id in s.rows && Prunable(s.rows[id], step.cutoff)
  {
    hide Backoff;
  }

  /** The step at index `k` prunes the row of a dispatched and delivered event, after one
      that selected it for its age. */
  ghost predicate PrunesDelivered(steps: seq<Step>, k: nat, id: EventId)
    requires k < |steps|
  {
    var s := Execute(steps[..k]);
    && steps[k] == PruneDelete(id) && id in s.selected
    && id in s.rows && s.rows[id].status == Dispatched && id in s.delivered
    && exists j :: 0 <= j < k && SelectsAged(steps, j, id)
  }

  /** An event that was ever committed leaves the table only by a pruning step, at a time
      when it was dispatched and a dispatch call for it had returned, and after a step that
      selected it because it had been dispatched by the cutoff; nothing else removes or
      forgets an event. */
  lemma {:induction false} OnlyDispatchedRowsLeave(steps: seq<Step>, id: EventId)
    requires id in Execute(steps).committed && id !in Execute(steps).rows
    ensures exists k :: 0 <= k < |steps| && PrunesDelivered(steps, k, id)
  {
    hide Backoff, DeliveryKept;
    var n := |steps| - 1;
    var before := steps[..n];
    if id in Execute(before).committed && id !in Execute(before).rows {
      OnlyDispatchedRowsLeave(before, id);
      var k :| 0 <= k < |before| && PrunesDelivered(before, k, id);
      PrunedEarlier(steps, n, k, id);
    } else {
      AtLeastOnce(before);
      LeftJustNow(Execute(before), steps[n], id);
      var j := SelectedByStep(before, id);
      assert before[..j] == steps[..j];
      assert SelectsAged(steps, j, id);
      assert PrunesDelivered(steps, n, id);
    }
  }

  lemma PrunedEarlier(steps: seq<Step>, n: nat, k: nat, id: EventId)
    requires k < n <= |steps| && PrunesDelivered(steps[..n], k, id)
    ensures PrunesDelivered(steps, k, id)
  {
    hide Execute;
    var before := steps[..n];
    assert before[..k] == steps[..k];
    var j :| 0 <= j < k && SelectsAged(before, j, id);
    assert before[..j] == steps[..j];
    assert SelectsAged(steps, j, id);
  }

  lemma LeftJustNow(s: System, step: Step, id: EventId)
    requires Enabled(s, step) && DeliveryKept(s)
    requires id in Apply(s, step).committed && id !in Apply(s, step).rows
    requires !(id in s.committed && id !in s.rows)
    ensures step == PruneDelete(id) && id in s.selected
    ensures id in s.rows && s.rows[id].status == Dispatched && id in s.delivered
  {
    hide Backoff;
  }

  // ---------- leases ----------

  /** Every holder settles or dies before its lease ends. */
  ghost predicate Timely(s: System) {
    forall t :: t in s.holds ==> s.now < s.holds[t].leaseEnd
  }

  /** A live claim owns its row: the row is being processed under its lease. */
  ghost predicate Owns(s: System, t: nat)
    requires t in s.holds
  {
    var hold := s.holds[t];
    && hold.event in s.rows
    && s.rows[hold.event].status == Processing
    && s.rows[hold.event].nextAttemptAt == hold.leaseEnd
    && s.rows[hold.event].attempts == hold.attempt >= 1
    && t < s.tickets
  }

  ghost predicate Exclusive(s: System) {
    && (forall t :: t in s.holds ==> Owns(s, t))
    && (forall t, u :: t in s.holds && u in s.holds && s.holds[t].event == s.holds[u].event ==> t == u)
  }

  ghost predicate Held(s: System, id: EventId) {
    exists t :: t in s.holds && s.holds[t].event == id
  }

  /** A row's attempts are its claims, and lost claims are all that pushes it beyond its
      ten attempts. */
  predicate WithinAttempts(row: Row, claims: nat, lost: nat, held: bool) {
    && row.attempts == claims
    && match row.status
       case Pending => row.attempts <= MAX_ATTEMPTS - 1 + lost
       case Processing => row.attempts <= (if held then MAX_ATTEMPTS else MAX_ATTEMPTS - 1) + lost
       case Dispatched => row.attempts <= MAX_ATTEMPTS + lost
       case Failed => MAX_ATTEMPTS <= row.attempts <= MAX_ATTEMPTS + lost
  }

  ghost predicate Bounded(s: System, id: EventId)
    requires id in s.rows
  {
    WithinAttempts(s.rows[id], Count(s.claims, id), Count(s.crashes, id), Held(s, id))
  }

  ghost predicate AllBounded(s: System) {
    forall id :: id in s.rows ==> Bounded(s, id)
  }

  ghost predicate CountsKnown(s: System) {
    && s.rows.Keys <= s.committed
    && (forall id :: id !in s.committed ==> id !in s.crashes && id !in s.claims)
    && (forall t :: t in s.holds ==> s.holds[t].event in s.committed)
  }

  /** The step takes the row away from a live holder: it reclaims a lease that has run out
      under its holder, or it replays an event that is being processed. */
  ghost predicate Dispossesses(s: System, step: Step) {
    || (step.Reclaim? && exists t :: t in s.holds && s.holds[t].leaseEnd <= step.at)
    || (step.Replay? && Held(s, step.id))
  }

  /** A live claim keeps its row as long as it lives. */
  lemma StepKeepsOwner(s: System, step: Step, t: nat)
    requires Enabled(s, step) && Exclusive(s) && CountsKnown(s) && !Dispossesses(s, step)
    requires t in s.holds && t in Apply(s, step).holds
    ensures Owns(Apply(s, step), t) && Apply(s, step).holds[t].event == s.holds[t].event
  {
    hide Apply;
    assert Owns(s, t);
    assert Held(s, s.holds[t].event);
    RowStaysOwned(s, step, t);
  }

  lemma RowStaysOwned(s: System, step: Step, t: nat)
    requires Enabled(s, step) && t in s.holds && t in Apply(s, step).holds && Owns(s, t)
    requires s.holds[t].event in s.committed
    requires step.Reclaim? ==> s.holds[t].leaseEnd > step.at
    requires step.Replay? ==> s.holds[t].event != step.id
    requires step.Settle? && s.holds[step.ticket].event == s.holds[t].event ==> step.ticket == t
    ensures Owns(Apply(s, step), t) && Apply(s, step).holds[t].event == s.holds[t].event
  {
    hide Backoff;
  }

  /** The only new holder is that of a claim. */
  lemma HolderAfter(s: System, step: Step, t: nat)
    requires Enabled(s, step) && t in Apply(s, step).holds
    requires step.Claim? ==> s.tickets !in s.holds
    ensures Apply(s, step).holds[t].event ==
              if step.Claim? && t == s.tickets then step.id else if t in s.holds then s.holds[t].event else ""
    ensures t !in s.holds ==> step.Claim? && t == s.tickets && Owns(Apply(s, step), t)
  {
    hide Backoff;
  }

  lemma StepKeepsExclusive(s: System, step: Step)
    requires Enabled(s, step) && Exclusive(s) && CountsKnown(s) && !Dispossesses(s, step)
    ensures Exclusive(Apply(s, step))
  {
    hide CountsKnown, Dispossesses, Apply, Enabled;
    var after := Apply(s, step);
    assert forall t :: t in s.holds ==> Owns(s, t);
    forall t | t in after.holds ensures Owns(after, t) {
      if t in s.holds {
        StepKeepsOwner(s, step, t);
      } else {
        HolderAfter(s, step, t);
      }
    }
    if step.Claim? {
      DueNotHeld(s, step.id, step.at);
    }
    SecondHolderExactly(s, step);
  }

  lemma DueNotHeld(s: System, id: EventId, at: int)
    requires Enabled(s, Claim(id, at)) && Exclusive(s)
    ensures !Held(s, id)
  {
    forall t | t in s.holds ensures s.holds[t].event != id {
      assert Owns(s, t);
    }
  }

  /** Where live claims own their rows, exclusively, a step changes that exactly when it
      takes a row away from its holder. */
  lemma OwnershipLostExactly(s: System, step: Step)
    requires Enabled(s, step) && Exclusive(s) && CountsKnown(s)
    ensures Exclusive(Apply(s, step)) <==> !Dispossesses(s, step)
  {
    hide Backoff, CountsKnown;
    if !Dispossesses(s, step) {
      StepKeepsExclusive(s, step);
    } else {
      var t :| t in s.holds && if step.Reclaim? then s.holds[t].leaseEnd <= step.at else s.holds[t].event == step.id;
      assert Owns(s, t);
      assert t in Apply(s, step).holds && !Owns(Apply(s, step), t);
    }
  }

  ghost predicate OneHolderEach(s: System) {
    forall t, u :: t in s.holds && u in s.holds && s.holds[t].event == s.holds[u].event ==> t == u
  }

  /** An event gets a second live holder exactly when it is claimed while it has one: which,
      by the above, takes an earlier step that dispossesses the first. */
  lemma SecondHolderExactly(s: System, step: Step)
    requires Enabled(s, step) && OneHolderEach(s) && forall t :: t in s.holds ==> t < s.tickets
    ensures !OneHolderEach(Apply(s, step)) <==> step.Claim? && Held(s, step.id)
  {
    hide Apply, Enabled;
    var after := Apply(s, step);
    forall t | t in after.holds
      ensures t in s.holds ==> after.holds[t].event == s.holds[t].event
      ensures t !in s.holds ==> step.Claim? && t == s.tickets && after.holds[t].event == step.id
    {
      HolderAfter(s, step, t);
    }
    if step.Claim? && Held(s, step.id) {
      var t :| t in s.holds && s.holds[t].event == step.id;
      ClaimAddsHolder(s, step.id, step.at, t);
      assert t != s.tickets && t in after.holds && s.tickets in after.holds;
    }
  }

  lemma ClaimAddsHolder(s: System, id: EventId, at: int, t: nat)
    requires Enabled(s, Claim(id, at)) && t in s.holds
    ensures t in Apply(s, Claim(id, at)).holds && s.tickets in Apply(s, Claim(id, at)).holds
  {
  }

  lemma StepKeepsCounts(s: System, step: Step)
    requires Enabled(s, step) && CountsKnown(s)
    ensures CountsKnown(Apply(s, step))
  {
    hide Apply;
    var after := Apply(s, step);
    RowsStayCommitted(s, step);
    forall id | id !in after.committed ensures id !in after.crashes && id !in after.claims {
      CountedAreCommitted(s, step, id);
    }
    forall t | t in after.holds ensures after.holds[t].event in after.committed {
      HolderIsCommitted(s, step, t);
    }
  }

  lemma CountedAreCommitted(s: System, step: Step, id: EventId)
    requires Enabled(s, step) && CountsKnown(s) && id !in Apply(s, step).committed
    ensures id !in Apply(s, step).crashes && id !in Apply(s, step).claims
  {
    hide Backoff;
  }

  lemma HolderIsCommitted(s: System, step: Step, t: nat)
    requires Enabled(s, step) && CountsKnown(s) && t in Apply(s, step).holds
    ensures Apply(s, step).holds[t].event in Apply(s, step).committed
  {
    hide Backoff;
  }

  lemma StepKeepsBounds(s: System, step: Step)
    requires Enabled(s, step) && Exclusive(s) && CountsKnown(s) && AllBounded(s) && !Dispossesses(s, step)
    ensures AllBounded(Apply(s, step))
  {
    var after := Apply(s, step);
    forall id | id in after.rows ensures Bounded(after, id) {
      if id in s.rows {
        BoundsOfRow(s, step, id);
      }
    }
  }

  lemma BoundsOfRow(s: System, step: Step, id: EventId)
    requires Enabled(s, step) && Exclusive(s) && !Dispossesses(s, step) && id in s.rows && Bounded(s, id)
    requires id in Apply(s, step).rows
    requires step.Enqueue? ==> step.id != id
    ensures Bounded(Apply(s, step), id)
  {
    hide Bounded, Exclusive, Dispossesses, Apply;
    if step.Settle? {
      BoundsAfterSettle(s, step.ticket, id);
    } else if step.Crash? {
      BoundsAfterCrash(s, step.ticket, id);
    } else {
      BoundsAfterOther(s, step, id);
    }
  }

  /** The holder of an event stays its holder until it settles or crashes. */
  lemma StillHeld(s: System, step: Step, id: EventId)
    requires Enabled(s, step) && Exclusive(s) && Held(s, id)
    requires (step.Settle? || step.Crash?) ==> s.holds[step.ticket].event != id
    ensures Held(Apply(s, step), id)
  {
    hide Backoff;
    var t :| t in s.holds && s.holds[t].event == id;
    assert Owns(s, t);
    assert Apply(s, step).holds[t].event == id;
  }

  lemma BoundsAfterSettle(s: System, t: nat, id: EventId)
    requires Enabled(s, Settle(t)) && Exclusive(s) && id in s.rows && Bounded(s, id)
    ensures Bounded(Apply(s, Settle(t)), id)
  {
    hide Backoff;
    assert Owns(s, t);
    if s.holds[t].event != id && Held(s, id) {
      StillHeld(s, Settle(t), id);
    }
  }

  lemma BoundsAfterCrash(s: System, t: nat, id: EventId)
    requires Enabled(s, Crash(t)) && Exclusive(s) && id in s.rows && Bounded(s, id)
    ensures Bounded(Apply(s, Crash(t)), id)
  {
    assert Owns(s, t);
    if s.holds[t].event != id && Held(s, id) {
      StillHeld(s, Crash(t), id);
    }
  }

  lemma BoundsAfterOther(s: System, step: Step, id: EventId)
    requires Enabled(s, step) && Exclusive(s) && !Dispossesses(s, step) && id in s.rows && Bounded(s, id)
    requires !step.Settle? && !step.Crash?
    requires id in Apply(s, step).rows
    requires step.Enqueue? ==> step.id != id
    ensures Bounded(Apply(s, step), id)
  {
    hide Apply;
    if Held(s, id) {
      StillHeld(s, step, id);
      var t :| t in s.holds && s.holds[t].event == id;
      assert Owns(s, t);
    }
    if step.Claim? && step.id == id {
      ClaimHolds(s, id, step.at);
    }
    RowAfterOther(s, step, id, Held(s, id), Held(Apply(s, step), id));
  }

  lemma ClaimHolds(s: System, id: EventId, at: int)
    requires Enabled(s, Claim(id, at))
    ensures Held(Apply(s, Claim(id, at)), id)
  {
    assert Apply(s, Claim(id, at)).holds[s.tickets].event == id;
  }

  lemma RowAfterOther(s: System, step: Step, id: EventId, held: bool, heldAfter: bool)
    requires Enabled(s, step) && id in s.rows && id in Apply(s, step).rows
    requires WithinAttempts(s.rows[id], Count(s.claims, id), Count(s.crashes, id), held)
    requires !step.Settle? && !step.Crash? && (step.Enqueue? ==> step.id != id)
    requires held ==> heldAfter && s.rows[id].status == Processing
    requires held && step.Reclaim? ==> !Stale(s.rows[id], step.at)
    requires step.Claim? && step.id == id ==> heldAfter
    ensures var after := Apply(s, step);
      WithinAttempts(after.rows[id], Count(after.claims, id), Count(after.crashes, id), heldAfter)
  {
    hide Apply, Count;
    CountsAfterOther(s, step, id);
    if step.Reclaim? {
      RowAfterReclaim(s, step.at, id);
    }
  }

  lemma RowAfterReclaim(s: System, at: int, id: EventId)
    requires Enabled(s, Reclaim(at)) && id in s.rows
    ensures Apply(s, Reclaim(at)).rows[id] == Reclaimed(s.rows[id], at)
  {
  }

  /** What a step other than a settlement or a crash does to an event's row and counts. */
  lemma CountsAfterOther(s: System, step: Step, id: EventId)
    requires Enabled(s, step) && id in s.rows && id in Apply(s, step).rows
    requires !step.Settle? && !step.Crash? && (step.Enqueue? ==> step.id != id)
    ensures var after := Apply(s, step);
      var claimed, replayed := step.Claim? && step.id == id, step.Replay? && step.id == id;
      && (!step.Reclaim? ==>
            after.rows[id] == if claimed then Claimed(s.rows[id], step.at)
                              else if replayed then Rearmed(s.rows[id], s.now) else s.rows[id])
      && Count(after.claims, id) ==
           (if replayed then 0 else Count(s.claims, id) + if claimed then 1 else 0)
      && Count(after.crashes, id) == if replayed then 0 else Count(s.crashes, id)
  {
    hide Claimed, Rearmed, Reclaimed;
  }

  /** No step of the run takes a row away from a live holder. */
  ghost predicate Disciplined(steps: seq<Step>) {
    steps != [] ==>
      var before, step := steps[..|steps| - 1], steps[|steps| - 1];
      && Disciplined(before)
      && (Enabled(Execute(before), step) ==> !Dispossesses(Execute(before), step))
  }

  ghost predicate AlwaysExclusive(steps: seq<Step>) {
    Exclusive(Execute(steps)) && (steps != [] ==> AlwaysExclusive(steps[..|steps| - 1]))
  }

  lemma {:induction false} CountsAlwaysKnown(steps: seq<Step>)
    ensures CountsKnown(Execute(steps))
  {
    hide CountsKnown, Apply, Enabled;
    if steps == [] {
      NothingHeld();
    } else {
      CountsAlwaysKnown(steps[..|steps| - 1]);
      if Enabled(Execute(steps[..|steps| - 1]), steps[|steps| - 1]) {
        StepKeepsCounts(Execute(steps[..|steps| - 1]), steps[|steps| - 1]);
      }
    }
  }

  lemma NothingHeld()
    ensures CountsKnown(START) && Exclusive(START) && AllBounded(START)
  {
  }

  /** Over whole runs: live claims always own their rows, exclusively, if and only if no
      step takes a row away from its holder. */
  lemma {:induction false} LeasesExactly(steps: seq<Step>)
    ensures AlwaysExclusive(steps) <==> Disciplined(steps)
  {
    hide Apply, Enabled, Exclusive, Dispossesses, CountsKnown;
    if steps == [] {
      NothingHeld();
    } else {
      var before, step := steps[..|steps| - 1], steps[|steps| - 1];
      LeasesExactly(before);
      CountsAlwaysKnown(before);
      if AlwaysExclusive(before) && Enabled(Execute(before), step) {
        OwnershipLostExactly(Execute(before), step);
      }
    }
  }

  /** What workers and administrators can keep to: holders settle or die before their lease
      ends, and no event is replayed while it is being processed. */
  ghost predicate Careful(steps: seq<Step>) {
    Timely(Execute(steps)) &&
    (steps != [] ==>
      var before, step := steps[..|steps| - 1], steps[|steps| - 1];
      Careful(before) && (step.Replay? ==> !Held(Execute(before), step.id)))
  }

  lemma {:induction false} CarefulRunsAreDisciplined(steps: seq<Step>)
    requires Careful(steps)
    ensures Disciplined(steps)
  {
    hide Apply;
    if steps != [] {
      CarefulRunsAreDisciplined(steps[..|steps| - 1]);
    }
  }

  lemma {:induction false} DisciplinedRunsAreBounded(steps: seq<Step>)
    requires Disciplined(steps)
    ensures Exclusive(Execute(steps)) && AllBounded(Execute(steps))
  {
    hide Apply, Enabled, Exclusive, Dispossesses, CountsKnown, AllBounded;
    if steps == [] {
      NothingHeld();
    } else {
      var before, step := steps[..|steps| - 1], steps[|steps| - 1];
      DisciplinedRunsAreBounded(before);
      CountsAlwaysKnown(before);
      if Enabled(Execute(before), step) {
        StepKeepsExclusive(Execute(before), step);
        StepKeepsBounds(Execute(before), step);
      }
    }
  }

  /** Leases are exclusive and retries bounded in every disciplined run: no event
      has two live holders, and an event is attempted at most ten times plus once
      for every claim lost in a crash since its last replay. */
  lemma LeasesAndRetries(steps: seq<Step>)
    requires Disciplined(steps)
    ensures var s := Execute(steps);
      && (forall t, u :: t in s.holds && u in s.holds && s.holds[t].event == s.holds[u].event ==> t == u)
      && (forall id :: id in s.rows ==>
            && s.rows[id].attempts == Count(s.claims, id) <= MAX_ATTEMPTS + Count(s.crashes, id)
            && (s.rows[id].status == Failed ==> s.rows[id].attempts >= MAX_ATTEMPTS))
  {
    DisciplinedRunsAreBounded(steps);
    var s := Execute(steps);
    forall id | id in s.rows ensures s.rows[id].attempts == Count(s.claims, id) <= MAX_ATTEMPTS + Count(s.crashes, id) {
      assert Bounded(s, id);
    }
    forall id | id in s.rows && s.rows[id].status == Failed ensures s.rows[id].attempts >= MAX_ATTEMPTS {
      assert Bounded(s, id);
    }
  }

  /** Without crashes: pending events have been tried at most nine times, failed
      ones exactly ten, a processing one has a live holder, and after its tenth
      claim an event is only ever in flight or settled for good. */
  lemma CrashFreeRetries(steps: seq<Step>, id: EventId)
    requires Disciplined(steps) && id in Execute(steps).rows && Count(Execute(steps).crashes, id) == 0
    ensures var s := Execute(steps);
      var row := s.rows[id];
      && row.attempts <= MAX_ATTEMPTS
      && (row.status == Pending ==> row.attempts <= MAX_ATTEMPTS - 1)
      && (row.status == Failed ==> row.attempts == MAX_ATTEMPTS)
      && (row.status == Processing && row.attempts == MAX_ATTEMPTS ==> Held(s, id))
      && (Count(s.claims, id) == MAX_ATTEMPTS ==> row.status != Pending)
  {
    DisciplinedRunsAreBounded(steps);
    assert Bounded(Execute(steps), id);
  }

  // ---------- how rows are taken from their holders ----------

  lemma ExecuteNext(steps: seq<Step>, step: Step)
    requires Enabled(Execute(steps), step)
    ensures Execute(steps + [step]) == Apply(Execute(steps), step)
  {
    assert (steps + [step])[..|steps|] == steps;
  }

  lemma NothingExecuted()
    ensures Execute([]) == START
  {
  }

  /** A holder that outlives its lease: the event is reclaimed and claimed again,
      so it has two live holders. */
  lemma LateHolderSharesEvent(id: EventId)
    ensures var s := Execute([Enqueue(id, PubSub, true), Claim(id, 0), Tick(300), Reclaim(300), Claim(id, 300)]);
      0 in s.holds && 1 in s.holds && s.holds[0].event == s.holds[1].event == id
  {
    hide Backoff, Execute;
    var s3 := [Enqueue(id, PubSub, true), Claim(id, 0), Tick(300)];
    var s4 := s3 + [Reclaim(300)];
    LeaseRunsOut(id);
    ExecuteNext(s3, Reclaim(300));
    ExecuteNext(s4, Claim(id, 300));
    assert s4 + [Claim(id, 300)] == [Enqueue(id, PubSub, true), Claim(id, 0), Tick(300), Reclaim(300), Claim(id, 300)];
  }

  lemma LeaseRunsOut(id: EventId)
    ensures var s := Execute([Enqueue(id, PubSub, true), Claim(id, 0), Tick(300)]);
      && s.now == 300 && s.tickets == 1 && id in s.rows && Stale(s.rows[id], 300)
      && 0 in s.holds && s.holds[0].event == id
  {
    hide Backoff, Execute;
    NothingExecuted();
    var s1, s2 := [Enqueue(id, PubSub, true)], [Enqueue(id, PubSub, true), Claim(id, 0)];
    assert s1 == [] + [Enqueue(id, PubSub, true)] && s2 == s1 + [Claim(id, 0)];
    assert [Enqueue(id, PubSub, true), Claim(id, 0), Tick(300)] == s2 + [Tick(300)];
    ExecuteNext([], Enqueue(id, PubSub, true));
    ExecuteNext(s1, Claim(id, 0));
    ExecuteNext(s2, Tick(300));
  }

  /** An event whose dispatch fails `n` times. */
  function FailLoop(id: EventId, n: nat): seq<Step> {
    if n == 0 then [Enqueue(id, PubSub, true)]
    else FailLoop(id, n - 1) + [Claim(id, 300 * (n - 1))] + [DispatchRaises(n - 1)] + [Settle(n - 1)] + [Tick(300)]
  }

  ghost predicate FailedTimes(s: System, id: EventId, n: nat) {
    && s.now == 300 * n && s.tickets == n && s.holds == map[]
    && id in s.rows && s.rows[id].attempts == n && s.rows[id].nextAttemptAt <= s.now
    && s.rows[id].status == if n < MAX_ATTEMPTS then Pending else Failed
  }

  lemma FailsOnceMore(s: System, id: EventId, n: nat)
    requires FailedTimes(s, id, n) && n < MAX_ATTEMPTS
    ensures Enabled(s, Claim(id, 300 * n))
    ensures var s1 := Apply(s, Claim(id, 300 * n));
      && Enabled(s1, DispatchRaises(n))
      && var s2 := Apply(s1, DispatchRaises(n));
      && Enabled(s2, Settle(n))
      && var s3 := Apply(s2, Settle(n));
      && FailedTimes(Apply(s3, Tick(300)), id, n + 1)
  {
    hide Backoff;
  }

  lemma {:induction false} FailLoopFails(id: EventId, n: nat)
    requires n <= MAX_ATTEMPTS
    ensures FailedTimes(Execute(FailLoop(id, n)), id, n)
  {
    hide Execute, Apply, Enabled, FailedTimes;
    if n == 0 {
      FreshEvent(id);
    } else {
      FailLoopFails(id, n - 1);
      var s0 := FailLoop(id, n - 1);
      var s1 := s0 + [Claim(id, 300 * (n - 1))];
      var s2 := s1 + [DispatchRaises(n - 1)];
      var s3 := s2 + [Settle(n - 1)];
      FailsOnceMore(Execute(s0), id, n - 1);
      ExecuteNext(s0, Claim(id, 300 * (n - 1)));
      ExecuteNext(s1, DispatchRaises(n - 1));
      ExecuteNext(s2, Settle(n - 1));
      assert Enabled(Execute(s3), Tick(300)) by { TimeAlwaysPasses(Execute(s3)); }
      ExecuteNext(s3, Tick(300));
    }
  }

  lemma TimeAlwaysPasses(s: System)
    ensures Enabled(s, Tick(300))
  {
  }

  lemma FreshEvent(id: EventId)
    ensures FailedTimes(Execute(FailLoop(id, 0)), id, 0)
  {
    NothingExecuted();
    ExecuteNext([], Enqueue(id, PubSub, true));
    assert [] + [Enqueue(id, PubSub, true)] == FailLoop(id, 0);
  }

  /** Two replays of a dead letter, each loaded before the first took effect, with a claim
      after each: two live holders although both are well within their leases. */
  lemma ReplaysShareEvent(id: EventId)
    ensures var steps := FailLoop(id, 10) + [LoadFailed(id)] + [LoadFailed(id)] + [Replay(id)] + [Claim(id, 3000)]
                         + [Replay(id)] + [Claim(id, 3000)];
      var s := Execute(steps);
      && Timely(s) && 10 in s.holds && 11 in s.holds && s.holds[10].event == s.holds[11].event == id
  {
    hide Backoff, Execute;
    FailLoopFails(id, 10);
    var s0 := FailLoop(id, 10);
    var s1 := s0 + [LoadFailed(id)];
    var s2 := s1 + [LoadFailed(id)];
    var s3 := s2 + [Replay(id)];
    var s4 := s3 + [Claim(id, 3000)];
    var s5 := s4 + [Replay(id)];
    ExecuteNext(s0, LoadFailed(id));
    ExecuteNext(s1, LoadFailed(id));
    ExecuteNext(s2, Replay(id));
    ExecuteNext(s3, Claim(id, 3000));
    ExecuteNext(s4, Replay(id));
    ExecuteNext(s5, Claim(id, 3000));
  }

  /** One worker after the other dying on an event. */
  function CrashLoop(id: EventId, n: nat): seq<Step> {
    if n == 0 then [Enqueue(id, PubSub, true)]
    else
      CrashLoop(id, n - 1) + [Claim(id, 300 * (n - 1))] + [Crash(n - 1)] + [Tick(300)] + [Reclaim(300 * n)]
  }

  /** Event `id` waits for its next claim after `n` lost ones. */
  ghost predicate WaitingAfter(s: System, id: EventId, n: nat) {
    && s.now == 300 * n && s.tickets == n && s.holds == map[]
    && id in s.rows && s.rows[id].status == Pending && s.rows[id].attempts == n && s.rows[id].nextAttemptAt <= s.now
    && Count(s.crashes, id) == n
  }

  lemma OneMoreCrash(s: System, id: EventId, n: nat)
    requires WaitingAfter(s, id, n)
    ensures Enabled(s, Claim(id, 300 * n))
    ensures var s1 := Apply(s, Claim(id, 300 * n));
      && Enabled(s1, Crash(n))
      && var s2 := Apply(s1, Crash(n));
      && Enabled(s2, Tick(300))
      && var s3 := Apply(s2, Tick(300));
      && Enabled(s3, Reclaim(300 * (n + 1)))
      && WaitingAfter(Apply(s3, Reclaim(300 * (n + 1))), id, n + 1)
  {
    hide Backoff;
  }

  /** Crashes alone take an event past any number of attempts, still pending: the
      dead-letter limit only counts attempts that end in an error. */
  lemma {:induction false} CrashesEscapeTheLimit(id: EventId, n: nat)
    ensures WaitingAfter(Execute(CrashLoop(id, n)), id, n)
  {
    hide Execute, CrashLoop, WaitingAfter;
    if n == 0 {
      FirstWait(id);
    } else {
      CrashesEscapeTheLimit(id, n - 1);
      OneMore(id, n - 1);
    }
  }

  lemma FirstWait(id: EventId)
    ensures WaitingAfter(Execute(CrashLoop(id, 0)), id, 0)
  {
    hide Execute;
    NothingExecuted();
    ExecuteNext([], Enqueue(id, PubSub, true));
    assert [] + [Enqueue(id, PubSub, true)] == CrashLoop(id, 0);
  }

  lemma OneMore(id: EventId, n: nat)
    requires WaitingAfter(Execute(CrashLoop(id, n)), id, n)
    ensures WaitingAfter(Execute(CrashLoop(id, n + 1)), id, n + 1)
  {
    hide Execute, Apply, Enabled, WaitingAfter;
    var s0 := CrashLoop(id, n);
    var s1 := s0 + [Claim(id, 300 * n)];
    var s2 := s1 + [Crash(n)];
    var s3 := s2 + [Tick(300)];
    OneMoreCrash(Execute(s0), id, n);
    ExecuteNext(s0, Claim(id, 300 * n));
    ExecuteNext(s1, Crash(n));
    ExecuteNext(s2, Tick(300));
    ExecuteNext(s3, Reclaim(300 * (n + 1)));
  }
}
