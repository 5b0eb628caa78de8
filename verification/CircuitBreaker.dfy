/** The circuit breaker of apps/ai_assist/circuit_breaker.py without a shared
    cache: an object whose methods each run under its lock, and all interleavings
    of the calls that go through it. */
module CircuitBreaker {
  import opened Wrappers

  datatype CircuitState = CLOSED | OPEN | HALF_OPEN

  datatype Settings = Settings(failureThreshold: int, recoveryTimeout: int)

  datatype Breaker = Breaker(state: CircuitState, failureCount: nat, lastFailureTime: Option<int>, probeInFlight: bool)

  datatype Admission = Refused | Admitted(wasHalfOpen: bool)

  const FRESH := Breaker(CLOSED, 0, None, false)

  // ---------- the effect of one locked block ----------

  predicate Recovered(b: Breaker, settings: Settings, now: int) {
    b.state == OPEN && b.lastFailureTime.Some? && now - b.lastFailureTime.value >= settings.recoveryTimeout
  }

  function Refreshed(b: Breaker, settings: Settings, now: int): Breaker {
    if Recovered(b, settings, now) then b.(state := HALF_OPEN, probeInFlight := false) else b
  }

  function AdmissionOf(b: Breaker): Admission {
    match b.state
    case CLOSED => Admitted(false)
    case OPEN => Refused
    case HALF_OPEN => if b.probeInFlight then Refused else Admitted(true)
  }

  function AfterAdmission(b: Breaker): Breaker {
    if AdmissionOf(b) == Admitted(true) then b.(probeInFlight := true) else b
  }

  function AfterSuccess(b: Breaker): Breaker {
    b.(failureCount := 0, probeInFlight := false, state := CLOSED)
  }

  function AfterFailure(b: Breaker, settings: Settings, wasHalfOpen: bool, now: int): Breaker {
    Breaker(
      if wasHalfOpen || b.state == HALF_OPEN || b.failureCount + 1 >= settings.failureThreshold then OPEN else b.state,
      b.failureCount + 1, Some(now), false)
  }

  class CircuitBreaker {
    const settings: Settings
    var state: CircuitState
    var failureCount: nat
    var lastFailureTime: Option<int>
    var probeInFlight: bool

    function Value(): Breaker
      reads this
    {
      Breaker(state, failureCount, lastFailureTime, probeInFlight)
    }

    constructor (failureThreshold: int, recoveryTimeout: int)
      ensures Value() == FRESH && settings == Settings(failureThreshold, recoveryTimeout)
    {
      settings := Settings(failureThreshold, recoveryTimeout);
      state, failureCount, lastFailureTime, probeInFlight := CLOSED, 0, None, false;
    }

    method RefreshState(now: int) returns (current: CircuitState)
      modifies this
      ensures Value() == Refreshed(old(Value()), settings, now) && current == state
    {
      if state == OPEN && lastFailureTime.Some? && now - lastFailureTime.value >= settings.recoveryTimeout {
        state, probeInFlight := HALF_OPEN, false;
      }
      current := state;
    }

    /** The locked first part of `call`: refuses, or admits and says whether the
        call is a recovery probe. */
    method Admit(now: int) returns (admission: Admission)
      modifies this
      ensures admission == AdmissionOf(Refreshed(old(Value()), settings, now))
      ensures Value() == AfterAdmission(Refreshed(old(Value()), settings, now))
    {
      var current := RefreshState(now);
      if current == OPEN {
        return Refused;
      }
      var wasHalfOpen := false;
      if current == HALF_OPEN {
        if probeInFlight {
          return Refused;
        }
        probeInFlight, wasHalfOpen := true, true;
      }
      admission := Admitted(wasHalfOpen);
    }

    method OnSuccess()
      modifies this
      ensures Value() == AfterSuccess(old(Value()))
    {
      failureCount, probeInFlight, state := 0, false, CLOSED;
    }

    method OnFailure(wasHalfOpen: bool, now: int)
      modifies this
      ensures Value() == AfterFailure(old(Value()), settings, wasHalfOpen, now)
    {
      failureCount, lastFailureTime, probeInFlight := failureCount + 1, Some(now), false;
      if wasHalfOpen || state == HALF_OPEN || failureCount >= settings.failureThreshold {
        state := OPEN;
      }
    }

    method Reset()
      modifies this
      ensures Value() == FRESH
    {
      state, failureCount, lastFailureTime, probeInFlight := CLOSED, 0, None, false;
    }
  }

  // ---------- threads ----------

  /** A call that was admitted and has not come back. */
  datatype Call = Call(wasHalfOpen: bool, admittedAt: int)

  datatype System = System(now: int, breaker: Breaker, calls: map<nat, Call>, tickets: nat)

  /** `Abandon` is a call that ends by neither returning nor raising an ordinary
      exception, such as one cut off by `KeyboardInterrupt`: nothing is recorded. */
  datatype Step =
    | Tick(ticks: nat)
    | Query
    | Start
    | Succeed(ticket: nat)
    | Fail(ticket: nat)
    | Abandon(ticket: nat)
    | Reset

  predicate Enabled(s: System, step: Step) {
    (step.Succeed? || step.Fail? || step.Abandon?) ==> step.ticket in s.calls
  }

  function Apply(settings: Settings, s: System, step: Step): System
    requires Enabled(s, step)
  {
    match step
    case Tick(ticks) => s.(now := s.now + ticks)
    case Query => s.(breaker := Refreshed(s.breaker, settings, s.now))
    case Start =>
      var b := Refreshed(s.breaker, settings, s.now);
      var admission := AdmissionOf(b);
      if admission == Refused then s.(breaker := b)
      else s.(breaker := AfterAdmission(b), calls := s.calls[s.tickets := Call(admission.wasHalfOpen, s.now)],
              tickets := s.tickets + 1)
    case Succeed(t) => s.(breaker := AfterSuccess(s.breaker), calls := s.calls - {t})
    case Fail(t) =>
      s.(breaker := AfterFailure(s.breaker, settings, s.calls[t].wasHalfOpen, s.now), calls := s.calls - {t})
    case Abandon(t) => s.(calls := s.calls - {t})
    case Reset => s.(breaker := FRESH)
  }

  /** The state after some steps; a step that is not possible changes nothing. */
  function Execute(settings: Settings, steps: seq<Step>): System {
    if steps == [] then System(0, FRESH, map[], 0)
    else
      var s, step := Execute(settings, steps[..|steps| - 1]), steps[|steps| - 1];
      if Enabled(s, step) then Apply(settings, s, step) else s
  }

  /** The step at index `i` of the run admits a recovery probe. */
  ghost predicate AdmitsProbe(settings: Settings, steps: seq<Step>, i: nat) {
    && i < |steps| && steps[i] == Start
    && var s := Execute(settings, steps[..i]);
       AdmissionOf(Refreshed(s.breaker, settings, s.now)) == Admitted(true)
  }

  /** Failed calls since the last successful one or the last reset. */
  function FailuresSinceClear(settings: Settings, steps: seq<Step>): nat {
    if steps == [] then 0
    else
      var before, step := steps[..|steps| - 1], steps[|steps| - 1];
      if !Enabled(Execute(settings, before), step) then FailuresSinceClear(settings, before)
      else match step
        case Fail(_) => FailuresSinceClear(settings, before) + 1
        case Succeed(_) => 0
        case Reset => 0
        case _ => FailuresSinceClear(settings, before)
  }

  lemma ExecuteNext(settings: Settings, steps: seq<Step>, i: nat)
    requires i < |steps|
    ensures var s := Execute(settings, steps[..i]);
      Execute(settings, steps[..i + 1]) == if Enabled(s, steps[i]) then Apply(settings, s, steps[i]) else s
  {
    assert steps[..i + 1][..i] == steps[..i];
  }

  // ---------- when the circuit opens ----------

  /** In every state of every run: the counter is the number of failures since the
      last success or reset, a closed circuit is below its threshold, and an open
      one knows when it last failed. */
  lemma {:induction false} CounterMeaning(settings: Settings, steps: seq<Step>)
    ensures var b := Execute(settings, steps).breaker;
      && b.failureCount == FailuresSinceClear(settings, steps)
      && (b.state == CLOSED && b.failureCount > 0 ==> b.failureCount < settings.failureThreshold)
      && (b.state != CLOSED ==> b.lastFailureTime.Some? && b.failureCount > 0)
      && (b.probeInFlight ==> b.state == HALF_OPEN)
  {
    if steps != [] {
      CounterMeaning(settings, steps[..|steps| - 1]);
    }
  }

  /** A closed circuit opens in exactly two ways: a call admitted as a probe fails,
      or the failures since the last success or reset reach the threshold. */
  lemma OpensExactly(settings: Settings, steps: seq<Step>, step: Step)
    requires Execute(settings, steps).breaker.state == CLOSED
    ensures var s := Execute(settings, steps);
      Execute(settings, steps + [step]).breaker.state != CLOSED <==>
        && step.Fail? && step.ticket in s.calls
        && (s.calls[step.ticket].wasHalfOpen || FailuresSinceClear(settings, steps) + 1 >= settings.failureThreshold)
  {
    assert (steps + [step])[..|steps|] == steps;
    CounterMeaning(settings, steps);
  }

  /** An open circuit lets a call through, as its probe, exactly when the timeout has
      passed since the last recorded failure. */
  lemma OpenAdmitsAfterTimeout(settings: Settings, steps: seq<Step>)
    requires Execute(settings, steps).breaker.state == OPEN
    ensures var s := Execute(settings, steps);
      && s.breaker.lastFailureTime.Some?
      && (AdmitsProbe(settings, steps + [Start], |steps|) <==>
            s.now >= s.breaker.lastFailureTime.value + settings.recoveryTimeout)
      && (!AdmitsProbe(settings, steps + [Start], |steps|) ==> Execute(settings, steps + [Start]).calls == s.calls)
  {
    assert (steps + [Start])[..|steps|] == steps;
    CounterMeaning(settings, steps);
  }

  // ---------- probes ----------

  /** While the circuit stays half-open after a probe was admitted, that probe stays
      registered. */
  lemma {:induction false} ProbeStaysRegistered(settings: Settings, steps: seq<Step>, i: nat, j: nat)
    requires AdmitsProbe(settings, steps, i) && i < j <= |steps|
    requires forall k :: i < k <= j ==> Execute(settings, steps[..k]).breaker.state == HALF_OPEN
    ensures Execute(settings, steps[..j]).breaker.probeInFlight
  {
    ExecuteNext(settings, steps, j - 1);
    if i + 1 < j {
      ProbeStaysRegistered(settings, steps, i, j - 1);
      assert Execute(settings, steps[..j - 1]).breaker.state == HALF_OPEN;
    }
  }

  /** At most one call is admitted per half-open episode, under every interleaving:
      between two admitted probes the circuit was closed or open. */
  lemma SingleFlight(settings: Settings, steps: seq<Step>, i: nat, j: nat)
    requires i < j && AdmitsProbe(settings, steps, i) && AdmitsProbe(settings, steps, j)
    ensures exists k :: i < k <= j && Execute(settings, steps[..k]).breaker.state != HALF_OPEN
  {
    if forall k :: i < k <= j ==> Execute(settings, steps[..k]).breaker.state == HALF_OPEN {
      ProbeStaysRegistered(settings, steps, i, j);
    }
  }

  /** Since a probe was admitted at time `at`: it is still registered, or the circuit
      has closed, or it has failed again no earlier than `at`. */
  ghost predicate ProbedAt(settings: Settings, s: System, at: int) {
    && at <= s.now
    && match s.breaker.state
       case CLOSED => true
       case OPEN => s.breaker.lastFailureTime.Some? && at <= s.breaker.lastFailureTime.value
       case HALF_OPEN =>
         s.breaker.probeInFlight ||
         (s.breaker.lastFailureTime.Some? && at <= s.breaker.lastFailureTime.value
          && s.now >= s.breaker.lastFailureTime.value + settings.recoveryTimeout)
  }

  lemma {:induction false} ProbedAtKept(settings: Settings, steps: seq<Step>, i: nat, j: nat)
    requires AdmitsProbe(settings, steps, i) && i < j <= |steps|
    ensures ProbedAt(settings, Execute(settings, steps[..j]), Execute(settings, steps[..i]).now)
  {
    ExecuteNext(settings, steps, j - 1);
    if i + 1 < j {
      ProbedAtKept(settings, steps, i, j - 1);
    }
  }

  /** Two probes are at least a recovery timeout apart. */
  lemma ProbeSpacing(settings: Settings, steps: seq<Step>, i: nat, j: nat)
    requires i < j && AdmitsProbe(settings, steps, i) && AdmitsProbe(settings, steps, j)
    ensures Execute(settings, steps[..j]).now >= Execute(settings, steps[..i]).now + settings.recoveryTimeout
  {
    ProbedAtKept(settings, steps, i, j);
  }

  // ---------- probes in flight ----------

  /** No probe in flight is older than a recovery timeout. */
  ghost predicate PromptProbes(settings: Settings, s: System) {
    forall t :: t in s.calls && s.calls[t].wasHalfOpen ==> s.now < s.calls[t].admittedAt + settings.recoveryTimeout
  }

  ghost predicate OneProbe(s: System) {
    forall t, u :: t in s.calls && u in s.calls && s.calls[t].wasHalfOpen && s.calls[u].wasHalfOpen ==> t == u
  }

  lemma {:induction false} TicketsGrow(settings: Settings, steps: seq<Step>)
    ensures forall t :: t in Execute(settings, steps).calls ==> t < Execute(settings, steps).tickets
  {
    if steps != [] {
      TicketsGrow(settings, steps[..|steps| - 1]);
    }
  }

  /** Every probe in flight was admitted by some step of the run. */
  lemma {:induction false} ProbeOrigin(settings: Settings, steps: seq<Step>, t: nat) returns (i: nat)
    requires t in Execute(settings, steps).calls && Execute(settings, steps).calls[t].wasHalfOpen
    ensures AdmitsProbe(settings, steps, i)
    ensures Execute(settings, steps[..i]).tickets == t
    ensures Execute(settings, steps[..i]).now == Execute(settings, steps).calls[t].admittedAt
  {
    var n := |steps| - 1;
    assert steps[..n + 1] == steps;
    ExecuteNext(settings, steps, n);
    var before := Execute(settings, steps[..n]);
    TicketsGrow(settings, steps[..n]);
    if t in before.calls {
      i := ProbeOrigin(settings, steps[..n], t);
      assert steps[..n][..i] == steps[..i];
    } else {
      i := n;
    }
  }

  /** Single admission gives single flight when probes are prompt: then at most one
      is in flight. */
  lemma OneProbeInFlight(settings: Settings, steps: seq<Step>)
    requires PromptProbes(settings, Execute(settings, steps))
    ensures OneProbe(Execute(settings, steps))
  {
    var s := Execute(settings, steps);
    forall t, u | t in s.calls && u in s.calls && s.calls[t].wasHalfOpen && s.calls[u].wasHalfOpen ensures t == u {
      var i := ProbeOrigin(settings, steps, t);
      var j := ProbeOrigin(settings, steps, u);
      if i < j {
        ProbeSpacing(settings, steps, i, j);
        TimePasses(settings, steps, j);
      } else if j < i {
        ProbeSpacing(settings, steps, j, i);
        TimePasses(settings, steps, i);
      }
    }
  }

  lemma {:induction false} TimePasses(settings: Settings, steps: seq<Step>, i: nat)
    requires i <= |steps|
    ensures Execute(settings, steps[..i]).now <= Execute(settings, steps).now
  {
    if i == |steps| {
      assert steps[..i] == steps;
    } else {
      var n := |steps| - 1;
      assert steps[..n + 1] == steps && steps[..n][..i] == steps[..i];
      ExecuteNext(settings, steps, n);
      TimePasses(settings, steps[..n], i);
    }
  }

  /** Without that, two probes can be in flight at once: the failure of an older
      call ends the first probe's episode, and a second one starts. */
  lemma TwoProbesInFlight(timeout: nat)
    ensures var settings := Settings(1, timeout);
      !OneProbe(Execute(settings, [Start, Start, Fail(0), Tick(timeout), Start, Fail(1), Tick(timeout), Start]))
  {
    hide Execute;
    var settings := Settings(1, timeout);
    var steps := [Start, Start, Fail(0), Tick(timeout), Start, Fail(1), Tick(timeout), Start];
    NothingExecuted(settings, steps);
    ExecuteNext(settings, steps, 0);
    ExecuteNext(settings, steps, 1);
    ExecuteNext(settings, steps, 2);
    ExecuteNext(settings, steps, 3);
    ExecuteNext(settings, steps, 4);
    ExecuteNext(settings, steps, 5);
    ExecuteNext(settings, steps, 6);
    ExecuteNext(settings, steps, 7);
    assert steps[..8] == steps;
    var s := Execute(settings, steps);
    assert 2 in s.calls && s.calls[2].wasHalfOpen;
    assert 3 in s.calls && s.calls[3].wasHalfOpen;
  }

  lemma NothingExecuted(settings: Settings, steps: seq<Step>)
    ensures Execute(settings, steps[..0]) == System(0, FRESH, map[], 0)
  {
  }

  // ---------- exactly when probes overlap ----------

  ghost predicate ProbeInFlight(s: System) {
    exists t :: t in s.calls && s.calls[t].wasHalfOpen
  }

  /** A call that starts now is admitted as a probe: the circuit is open and the timeout
      has passed since its last failure, or it is half-open with no probe registered. */
  predicate ReadyForProbe(settings: Settings, s: System) {
    match s.breaker.state
    case CLOSED => false
    case OPEN => Recovered(s.breaker, settings, s.now)
    case HALF_OPEN => !s.breaker.probeInFlight
  }

  /** A second probe joins the first exactly when a call starts on a circuit that is ready
      for a probe although one is in flight. */
  lemma SecondProbeExactly(settings: Settings, steps: seq<Step>, step: Step)
    requires OneProbe(Execute(settings, steps))
    ensures var s := Execute(settings, steps);
      !OneProbe(Execute(settings, steps + [step])) <==> step == Start && ProbeInFlight(s) && ReadyForProbe(settings, s)
  {
    hide Execute;
    var s := Execute(settings, steps);
    TicketsGrow(settings, steps);
    AppendedStep(settings, steps, step);
    var after := Execute(settings, steps + [step]);
    if step == Start && ProbeInFlight(s) && ReadyForProbe(settings, s) {
      var t :| t in s.calls && s.calls[t].wasHalfOpen;
      assert t in after.calls && after.calls[t].wasHalfOpen;
      assert s.tickets in after.calls && after.calls[s.tickets].wasHalfOpen;
    }
  }

  lemma AppendedStep(settings: Settings, steps: seq<Step>, step: Step)
    ensures var s := Execute(settings, steps);
      Execute(settings, steps + [step]) == if Enabled(s, step) then Apply(settings, s, step) else s
  {
    assert (steps + [step])[..|steps|] == steps;
  }

  ghost predicate AlwaysOneProbe(settings: Settings, steps: seq<Step>) {
    OneProbe(Execute(settings, steps)) && (steps != [] ==> AlwaysOneProbe(settings, steps[..|steps| - 1]))
  }

  /** No call starts on a circuit that is ready for a probe while one is in flight. */
  ghost predicate NoOverlappingStart(settings: Settings, steps: seq<Step>) {
    steps != [] ==>
      var before, step := steps[..|steps| - 1], steps[|steps| - 1];
      && NoOverlappingStart(settings, before)
      && (step == Start ==>
            !(ProbeInFlight(Execute(settings, before)) && ReadyForProbe(settings, Execute(settings, before))))
  }

  /** Over whole runs: at most one probe is ever in flight if and only if no call starts
      while the circuit is ready for a probe and one is in flight. */
  lemma {:induction false} OneProbeExactly(settings: Settings, steps: seq<Step>)
    ensures AlwaysOneProbe(settings, steps) <==> NoOverlappingStart(settings, steps)
  {
    hide OneProbe, ProbeInFlight, ReadyForProbe;
    if steps == [] {
      assert OneProbe(Execute(settings, [])) by { NoProbeYet(settings); }
    } else {
      var before, step := steps[..|steps| - 1], steps[|steps| - 1];
      OneProbeExactly(settings, before);
      assert before + [step] == steps;
      if OneProbe(Execute(settings, before)) {
        SecondProbeExactly(settings, before, step);
      }
    }
  }

  lemma NoProbeYet(settings: Settings)
    ensures OneProbe(Execute(settings, []))
  {
  }

  // ---------- exactly when the circuit is blocked ----------

  /** The step at index `k` records an outcome or resets the circuit. */
  ghost predicate Records(settings: Settings, steps: seq<Step>, k: nat)
    requires k < |steps|
  {
    (steps[k].Succeed? || steps[k].Fail? || steps[k].Reset?) && Enabled(Execute(settings, steps[..k]), steps[k])
  }

  /** A probe stays registered, and the circuit half-open, until some call is recorded or
      the circuit is reset: whatever else happens, also to the probe itself. */
  lemma {:induction false} RegisteredUntilRecorded(settings: Settings, steps: seq<Step>, i: nat, j: nat)
    requires AdmitsProbe(settings, steps, i) && i < j <= |steps|
    requires forall k :: i < k < j ==> !Records(settings, steps, k)
    ensures var b := Execute(settings, steps[..j]).breaker; b.state == HALF_OPEN && b.probeInFlight
  {
    hide Execute, Records;
    ExecuteNext(settings, steps, j - 1);
    if i + 1 < j {
      RegisteredUntilRecorded(settings, steps, i, j - 1);
      assert !Records(settings, steps, j - 1);
      NotRecorded(settings, steps, j - 1);
    }
  }

  lemma NotRecorded(settings: Settings, steps: seq<Step>, k: nat)
    requires k < |steps| && !Records(settings, steps, k)
    ensures (steps[k].Succeed? || steps[k].Fail? || steps[k].Reset?) ==>
              !Enabled(Execute(settings, steps[..k]), steps[k])
  {
  }

  /** Half-open with a probe registered, in flight or lost. */
  predicate Blocked(s: System) {
    s.breaker.state == HALF_OPEN && s.breaker.probeInFlight
  }

  /** Steps that record nothing: time passing, state queries, new calls, and calls that are
      cut off. */
  predicate Idle(step: Step) {
    step.Tick? || step.Query? || step.Start? || step.Abandon?
  }

  ghost predicate AllIdle(steps: seq<Step>) {
    forall k :: 0 <= k < |steps| ==> Idle(steps[k])
  }

  /** The number of calls admitted so far. */
  ghost function AdmittedCount(settings: Settings, steps: seq<Step>): nat {
    Execute(settings, steps).tickets
  }

  /** In every reachable state: no waiting and no number of attempts gets a call admitted if
      and only if the circuit is half-open with a probe registered.  If that probe and all
      older calls are gone, only a reset helps. */
  lemma BlockedExactly(settings: Settings, steps: seq<Step>)
    ensures Blocked(Execute(settings, steps)) <==>
      forall later :: AllIdle(later) ==> AdmittedCount(settings, steps + later) == AdmittedCount(settings, steps)
  {
    hide Execute, AdmittedCount, Blocked;
    if Blocked(Execute(settings, steps)) {
      forall later | AllIdle(later) ensures AdmittedCount(settings, steps + later) == AdmittedCount(settings, steps) {
        BlockedStays(settings, steps, later);
      }
    } else {
      var wait := WaitAdmits(settings, steps);
      assert AllIdle([Tick(wait), Start]);
    }
  }

  lemma {:induction false} BlockedStays(settings: Settings, steps: seq<Step>, later: seq<Step>)
    requires Blocked(Execute(settings, steps)) && AllIdle(later)
    ensures Blocked(Execute(settings, steps + later))
    ensures AdmittedCount(settings, steps + later) == AdmittedCount(settings, steps)
  {
    hide Execute;
    if later == [] {
      assert steps + later == steps;
    } else {
      var n := |later| - 1;
      assert AllIdle(later[..n]) && Idle(later[n]);
      BlockedStays(settings, steps, later[..n]);
      assert (steps + later[..n]) + [later[n]] == steps + later;
      AppendedStep(settings, steps + later[..n], later[n]);
    }
  }

  lemma WaitAdmits(settings: Settings, steps: seq<Step>) returns (wait: nat)
    requires !Blocked(Execute(settings, steps))
    ensures AdmittedCount(settings, steps + [Tick(wait), Start]) == AdmittedCount(settings, steps) + 1
  {
    hide Execute;
    var s := Execute(settings, steps);
    CounterMeaning(settings, steps);
    wait := if s.breaker.state == OPEN && s.breaker.lastFailureTime.value + settings.recoveryTimeout > s.now
            then s.breaker.lastFailureTime.value + settings.recoveryTimeout - s.now else 0;
    assert steps + [Tick(wait), Start] == steps + [Tick(wait)] + [Start];
    AppendedStep(settings, steps, Tick(wait));
    AppendedStep(settings, steps + [Tick(wait)], Start);
  }

  /** A circuit can be blocked with no call left that could unblock it. */
  lemma ProbeCanBeLost(timeout: nat)
    ensures var s := Execute(Settings(1, timeout), [Start, Fail(0), Tick(timeout), Start, Abandon(1)]);
      s.calls == map[] && s.breaker.state == HALF_OPEN && s.breaker.probeInFlight
  {
    hide Execute;
    var settings := Settings(1, timeout);
    var steps := [Start, Fail(0), Tick(timeout), Start, Abandon(1)];
    NothingExecuted(settings, steps);
    ExecuteNext(settings, steps, 0);
    ExecuteNext(settings, steps, 1);
    ExecuteNext(settings, steps, 2);
    ExecuteNext(settings, steps, 3);
    ExecuteNext(settings, steps, 4);
    assert steps[..5] == steps;
  }
}
