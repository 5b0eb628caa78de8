/** Runs of the outbox protocol of apps/core/outbox.py: failed attempts wait for their
    delay, and topics that nothing dispatches. */
module OutboxRetries {
  import opened Outbox
  import opened Wrappers

  lemma StepsAppend(before: seq<Step>, later: seq<Step>)
    requires later != []
    ensures before + later == (before + later[..|later| - 1]) + [later[|later| - 1]]
  {
  }

  lemma {:induction false} TimePasses(before: seq<Step>, later: seq<Step>)
    ensures Execute(before).now <= Execute(before + later).now
  {
    hide Execute, Apply, Enabled;
    if later == [] {
      assert before + later == before;
    } else {
      TimePasses(before, later[..|later| - 1]);
      StepsAppend(before, later);
      LastStep(before + later[..|later| - 1], later[|later| - 1]);
      StepTakesTime(Execute(before + later[..|later| - 1]), later[|later| - 1]);
    }
  }

  lemma LastStep(steps: seq<Step>, step: Step)
    ensures var s := Execute(steps);
      Execute(steps + [step]) == if Enabled(s, step) then Apply(s, step) else s
  {
    assert (steps + [step])[..|steps|] == steps;
  }

  lemma StepTakesTime(s: System, step: Step)
    ensures Enabled(s, step) ==> s.now <= Apply(s, step).now
  {
    hide Backoff;
  }

  /** The event waits, unheld, for a time that has not come. */
  ghost predicate Waits(s: System, id: EventId, row: Row) {
    && id in s.rows && s.rows[id] == row && row.status == Pending && s.now < row.nextAttemptAt
    && id in s.committed && !Held(s, id)
  }

  lemma StillWaits(s: System, step: Step, id: EventId, row: Row)
    requires Enabled(s, step) && Waits(s, id, row) && step != Replay(id)
    requires Apply(s, step).now < row.nextAttemptAt
    ensures Waits(Apply(s, step), id, row)
  {
    hide Apply, Held;
    SettlesOther(s, step, id);
    RowWaits(s, step, id);
    HeldOnlyByClaim(s, step, id);
  }

  lemma SettlesOther(s: System, step: Step, id: EventId)
    requires Enabled(s, step) && !Held(s, id)
    ensures step.Settle? ==> s.holds[step.ticket].event != id
  {
  }

  lemma RowWaits(s: System, step: Step, id: EventId)
    requires Enabled(s, step) && id in s.rows && s.rows[id].status == Pending && s.now < s.rows[id].nextAttemptAt
    requires id in s.committed && step != Replay(id)
    requires step.Settle? ==> s.holds[step.ticket].event != id
    ensures id in Apply(s, step).rows && Apply(s, step).rows[id] == s.rows[id] && id in Apply(s, step).committed
    ensures !(step.Claim? && step.id == id)
  {
    hide Backoff;
  }

  lemma HeldOnlyByClaim(s: System, step: Step, id: EventId)
    requires Enabled(s, step) && !Held(s, id) && !(step.Claim? && step.id == id)
    ensures !Held(Apply(s, step), id)
  {
    hide Backoff;
    forall t | t in Apply(s, step).holds ensures Apply(s, step).holds[t].event != id {
      if t in s.holds {
        assert s.holds[t].event != id;
      }
    }
  }

  lemma {:induction false} WaitsUntilDue(before: seq<Step>, later: seq<Step>, id: EventId, row: Row)
    requires Waits(Execute(before), id, row) && Replay(id) !in later
    requires Execute(before + later).now < row.nextAttemptAt
    ensures Waits(Execute(before + later), id, row)
  {
    hide Execute, Apply, Enabled, Waits;
    if later == [] {
      assert before + later == before;
    } else {
      var init, last := later[..|later| - 1], later[|later| - 1];
      StepsAppend(before, later);
      LastStep(before + init, last);
      StepTakesTime(Execute(before + init), last);
      assert last in later;
      WaitsUntilDue(before, init, id, row);
      if Enabled(Execute(before + init), last) {
        StillWaits(Execute(before + init), last, id, row);
      }
    }
  }

  /** A failed attempt is not repeated before its delay is over: until then, whatever else
      happens, the event is pending, held by nobody and claimed no further time, unless it is
      replayed. */
  lemma FailedAttemptWaits(before: seq<Step>, t: nat, later: seq<Step>)
    requires var s := Execute(before);
      && Enabled(s, Settle(t)) && Exclusive(s)
      && s.holds[t].stage == Raised && s.holds[t].attempt < MAX_ATTEMPTS
      && Replay(s.holds[t].event) !in later
      && Execute(before + [Settle(t)] + later).now < s.now + Backoff(s.holds[t].attempt)
    ensures var s, after := Execute(before), Execute(before + [Settle(t)] + later);
      var id := s.holds[t].event;
      && id in after.rows && after.rows[id].status == Pending && after.rows[id].attempts == s.holds[t].attempt
      && after.rows[id].nextAttemptAt == s.now + Backoff(s.holds[t].attempt) && !Held(after, id)
  {
    hide Execute, Backoff, Apply;
    var s := Execute(before);
    var id := s.holds[t].event;
    CountsAlwaysKnown(before);
    LastStep(before, Settle(t));
    TimePasses(before + [Settle(t)], later);
    SettlesToWait(s, t);
    WaitsUntilDue(before + [Settle(t)], later, id, Apply(s, Settle(t)).rows[id]);
  }

  lemma SettlesToWait(s: System, t: nat)
    requires Enabled(s, Settle(t)) && Exclusive(s) && CountsKnown(s)
    requires s.holds[t].stage == Raised && s.holds[t].attempt < MAX_ATTEMPTS
    ensures var id, after := s.holds[t].event, Apply(s, Settle(t));
      && id in after.rows && after.rows[id].attempts == s.holds[t].attempt && after.now == s.now
      && after.rows[id].nextAttemptAt == s.now + Backoff(s.holds[t].attempt)
      && Waits(after, id, after.rows[id])
  {
    hide Backoff;
    assert Owns(s, t);
  }

  // ---------- topics without a dispatcher ----------

  ghost predicate UnsupportedKept(s: System) {
    && s.delivered <= s.committed
    && forall id :: id in s.rows && s.rows[id].topic.Unsupported? ==> id !in s.delivered
  }

  lemma StepKeepsUnsupported(s: System, step: Step)
    requires Enabled(s, step) && CountsKnown(s) && UnsupportedKept(s)
    ensures UnsupportedKept(Apply(s, step))
  {
    hide Backoff;
  }

  /** An event of a topic that nothing dispatches is never delivered, in any run, and so is
      never marked as dispatched. */
  lemma {:induction false} UnsupportedNeverDispatched(steps: seq<Step>)
    ensures UnsupportedKept(Execute(steps))
    ensures var s := Execute(steps);
      forall id :: id in s.rows && s.rows[id].topic.Unsupported? ==>
        id !in s.delivered && s.rows[id].status != Dispatched
  {
    hide Apply, Enabled, CountsKnown;
    AtLeastOnce(steps);
    if steps != [] {
      var before, step := steps[..|steps| - 1], steps[|steps| - 1];
      UnsupportedNeverDispatched(before);
      CountsAlwaysKnown(before);
      if Enabled(Execute(before), step) {
        StepKeepsUnsupported(Execute(before), step);
      }
    }
  }
}
