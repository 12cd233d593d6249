/** The per-profile circuit breaker, and every run of its calls. */
module Breaker {
  import opened Wrappers

  datatype Config = Config(threshold: nat, cooldown: nat)

  /** `validate`. */
  predicate ConfigOk(c: Config) {
    c.threshold > 0 && c.cooldown > 0
  }

  datatype Circuit = Closed | Open | HalfOpen

  datatype Value = Value(state: Circuit, streak: nat, openedAt: Option<nat>, probing: bool, trips: nat)

  const INITIAL := Value(Closed, 0, None, false, 0)

  /** What an admitted call holds until its outcome is recorded. */
  datatype Guard = Guard(probe: bool)

  predicate CooldownElapsed(c: Config, b: Value, now: nat) {
    b.openedAt.Some? ==> now - b.openedAt.value >= c.cooldown
  }

  function Admit(c: Config, b: Value, now: nat): (Value, Option<Guard>) {
    match b.state
    case Closed => (b, Some(Guard(false)))
    case Open =>
      if CooldownElapsed(c, b, now) then (b.(state := HalfOpen, probing := true), Some(Guard(true)))
      else (b, None)
    case HalfOpen =>
      if !b.probing then (b.(probing := true), Some(Guard(true))) else (b, None)
  }

  function Success(b: Value, g: Guard): Value {
    if g.probe then b.(streak := 0, probing := false, state := Closed, openedAt := None)
    else b.(streak := 0)
  }

  function Failure(c: Config, b: Value, g: Guard, now: nat): Value {
    if g.probe then b.(probing := false, state := Open, openedAt := Some(now))
    else
      var b := b.(streak := b.streak + 1);
      if b.streak >= c.threshold && b.state == Closed
      then b.(state := Open, openedAt := Some(now), trips := b.trips + 1)
      else b
  }

  class CircuitBreaker {
    const config: Config
    var state: Circuit
    var consecutiveFailures: nat
    var openedAt: Option<nat>
    var probeInFlight: bool
    var totalTrips: nat

    ghost function Now(): Value
      reads this
    {
      Value(state, consecutiveFailures, openedAt, probeInFlight, totalTrips)
    }

    constructor (config: Config)
      ensures this.config == config && Now() == INITIAL
    {
      this.config := config;
      state, consecutiveFailures, openedAt, probeInFlight, totalTrips := Closed, 0, None, false, 0;
    }

    method TryAdmit(now: nat) returns (guard: Option<Guard>)
      modifies this
      ensures (Now(), guard) == Admit(config, old(Now()), now)
    {
      match state
      case Closed =>
        guard := Some(Guard(false));
      case Open =>
        if openedAt.None? || now - openedAt.value >= config.cooldown {
          state := HalfOpen;
          probeInFlight := true;
          guard := Some(Guard(true));
        } else {
          guard := None;
        }
      case HalfOpen =>
        if !probeInFlight {
          probeInFlight := true;
          guard := Some(Guard(true));
        } else {
          guard := None;
        }
    }

    /** `record`; a guard that is dropped unrecorded records a success. */
    method Record(guard: Guard, success: bool, now: nat)
      modifies this
      ensures Now() == if success then Success(old(Now()), guard) else Failure(config, old(Now()), guard, now)
    {
      if success {
        RecordSuccess(guard.probe);
      } else {
        RecordFailure(guard.probe, now);
      }
    }

    method RecordSuccess(wasProbe: bool)
      modifies this
      ensures Now() == Success(old(Now()), Guard(wasProbe))
    {
      consecutiveFailures := 0;
      if wasProbe {
        probeInFlight := false;
        state := Closed;
        openedAt := None;
      }
    }

    method RecordFailure(wasProbe: bool, now: nat)
      modifies this
      ensures Now() == Failure(config, old(Now()), Guard(wasProbe), now)
    {
      if wasProbe {
        probeInFlight := false;
        state := Open;
        openedAt := Some(now);
        return;
      }
      consecutiveFailures := consecutiveFailures + 1;
      if consecutiveFailures >= config.threshold && state == Closed {
        state := Open;
        openedAt := Some(now);
        totalTrips := totalTrips + 1;
      }
    }
  }

  // ---------------------------------------------------------------------
  // Runs
  // ---------------------------------------------------------------------

  /** A breaker, the guards its callers hold, and the clock. */
  datatype System = System(b: Value, probes: nat, plain: nat, now: nat)

  /** Calls, each some time after the one before. A guard must be held to be recorded. */
  datatype Step = Asks(wait: nat) | Records(guard: Guard, success: bool, wait: nat)

  predicate Holds(s: System, g: Guard) {
    if g.probe then s.probes > 0 else s.plain > 0
  }

  function Do(c: Config, s: System, step: Step): System {
    var now := s.now + step.wait;
    match step
    case Asks(_) =>
      var (b, guard) := Admit(c, s.b, now);
      System(b,
             s.probes + (if guard == Some(Guard(true)) then 1 else 0),
             s.plain + (if guard == Some(Guard(false)) then 1 else 0),
             now)
    case Records(g, success, _) =>
      if !Holds(s, g) then s.(now := now)
      else
        var b := if success then Success(s.b, g) else Failure(c, s.b, g, now);
        if g.probe then System(b, s.probes - 1, s.plain, now) else System(b, s.probes, s.plain - 1, now)
  }

  function Run(c: Config, steps: seq<Step>): System {
    if steps == [] then System(INITIAL, 0, 0, 0) else Do(c, Run(c, steps[..|steps| - 1]), steps[|steps| - 1])
  }

  predicate Inv(c: Config, s: System) {
    && s.probes == (if s.b.state == HalfOpen then 1 else 0)
    && (s.b.probing <==> s.b.state == HalfOpen)
    && (s.b.state == Closed ==> s.b.streak < c.threshold)
    && (s.b.openedAt.Some? <==> s.b.state != Closed)
    && (s.b.openedAt.Some? ==> s.b.openedAt.value <= s.now)
  }

  /** Every call keeps the invariant. */
  lemma StepKeeps(c: Config, s: System, step: Step)
    requires ConfigOk(c) && Inv(c, s)
    ensures Inv(c, Do(c, s, step))
  {
  }

  /**
   In every run: half-open exactly while one probe is out, and never two; a closed breaker's
   streak is below the threshold; the opening time is set exactly while not closed.
   */
  lemma {:induction false} RunKeeps(c: Config, steps: seq<Step>)
    requires ConfigOk(c)
    ensures Inv(c, Run(c, steps))
    decreases |steps|
  {
    if steps != [] {
      RunKeeps(c, steps[..|steps| - 1]);
      StepKeeps(c, Run(c, steps[..|steps| - 1]), steps[|steps| - 1]);
    }
  }

  /** How often a run went from closed to open. */
  function Trips(c: Config, steps: seq<Step>): nat {
    if steps == [] then 0
    else
      var front := steps[..|steps| - 1];
      Trips(c, front) + if Run(c, front).b.state == Closed && Run(c, steps).b.state == Open then 1 else 0
  }

  lemma {:induction false} TripsAreCounted(c: Config, steps: seq<Step>)
    requires ConfigOk(c)
    ensures Run(c, steps).b.trips == Trips(c, steps)
    decreases |steps|
  {
    if steps != [] {
      TripsAreCounted(c, steps[..|steps| - 1]);
      RunKeeps(c, steps[..|steps| - 1]);
    }
  }

  /** The breaker opened at step `i`: a trip or a failed probe. */
  predicate OpensAt(c: Config, steps: seq<Step>, i: nat)
    requires i < |steps|
  {
    Run(c, steps[..i]).b.state != Open && Run(c, steps[..i + 1]).b.state == Open
  }

  predicate AdmitsAt(c: Config, steps: seq<Step>, i: nat)
    requires i < |steps|
  {
    var s := Run(c, steps[..i]);
    steps[i].Asks? && Admit(c, s.b, s.now + steps[i].wait).1.Some?
  }

  lemma RunOn(c: Config, steps: seq<Step>, i: nat)
    requires i < |steps|
    ensures Run(c, steps[..i + 1]) == Do(c, Run(c, steps[..i]), steps[i])
  {
    var more := steps[..i + 1];
    assert more[..|more| - 1] == steps[..i] && more[|more| - 1] == steps[i];
  }

  /** Open since `from`, or the cooldown has passed. */
  predicate OpenSince(c: Config, s: System, from: nat) {
    s.now >= from + c.cooldown || (s.b.state == Open && s.b.openedAt == Some(from))
  }

  lemma StaysOpenOneStep(c: Config, s: System, step: Step, from: nat)
    requires ConfigOk(c) && Inv(c, s)
    ensures OpenSince(c, s, from) ==> OpenSince(c, Do(c, s, step), from)
    ensures s.b.state != Open && Do(c, s, step).b.state == Open ==> OpenSince(c, Do(c, s, step), Do(c, s, step).now)
  {
  }

  lemma {:induction false} StaysOpen(c: Config, steps: seq<Step>, i: nat, j: nat)
    requires ConfigOk(c) && i < j <= |steps| && OpensAt(c, steps, i)
    ensures OpenSince(c, Run(c, steps[..j]), Run(c, steps[..i + 1]).now)
    decreases j
  {
    var s, from := Run(c, steps[..j - 1]), Run(c, steps[..i + 1]).now;
    assert Run(c, steps[..j]) == Do(c, s, steps[j - 1]) by { RunOn(c, steps, j - 1); }
    assert Inv(c, s) by { RunKeeps(c, steps[..j - 1]); }
    if i + 1 < j {
      assert OpenSince(c, s, from) by { StaysOpen(c, steps, i, j - 1); }
    }
    StaysOpenOneStep(c, s, steps[j - 1], from);
  }

  /** Nothing is admitted until the cooldown after a trip or a failed probe has passed. */
  lemma NothingBeforeCooldown(c: Config, steps: seq<Step>, i: nat, j: nat)
    requires ConfigOk(c) && i < j < |steps| && OpensAt(c, steps, i) && AdmitsAt(c, steps, j)
    ensures Run(c, steps[..j + 1]).now >= Run(c, steps[..i + 1]).now + c.cooldown
  {
    StaysOpen(c, steps, i, j);
    RunOn(c, steps, j);
    RunKeeps(c, steps[..j]);
  }

  /** And once it has passed, one call is let through: an open breaker is never stuck. */
  lemma ProbesAfterCooldown(c: Config, s: System, wait: nat)
    requires ConfigOk(c) && Inv(c, s) && s.b.state == Open
    ensures var t := Do(c, s, Asks(wait));
            t.probes == 1 <==> s.now + wait >= s.b.openedAt.value + c.cooldown
    ensures var t := Do(c, s, Asks(wait)); t.probes == 1 ==>
              forall w: nat :: Do(c, t, Asks(w)).probes == 1 && Do(c, t, Asks(w)).plain == t.plain
  {
  }

  /** A held guard's outcome, as step `step` records it. */
  predicate Outcome(s: System, step: Step, success: bool) {
    step.Records? && Holds(s, step.guard) && step.success == success
  }

  /** The failures of ordinary calls since the last success of any call. */
  function FailuresSinceSuccess(c: Config, steps: seq<Step>): nat {
    if steps == [] then 0
    else
      var front, last := steps[..|steps| - 1], steps[|steps| - 1];
      var s := Run(c, front);
      if Outcome(s, last, true) then 0
      else FailuresSinceSuccess(c, front) + if Outcome(s, last, false) && !last.guard.probe then 1 else 0
  }

  lemma {:induction false} StreakCounts(c: Config, steps: seq<Step>)
    ensures Run(c, steps).b.streak == FailuresSinceSuccess(c, steps)
    decreases |steps|
  {
    if steps != [] {
      StreakCounts(c, steps[..|steps| - 1]);
    }
  }

  /** A closed breaker trips exactly at the ordinary failure that makes `threshold` of them since the last success. */
  lemma TripsExactly(c: Config, steps: seq<Step>, i: nat)
    requires ConfigOk(c) && i < |steps| && Run(c, steps[..i]).b.state == Closed
    ensures Run(c, steps[..i + 1]).b.state == (
              if Outcome(Run(c, steps[..i]), steps[i], false) && FailuresSinceSuccess(c, steps[..i + 1]) == c.threshold
              then Open else Closed)
  {
    RunOn(c, steps, i);
    RunKeeps(c, steps[..i]);
    RunKeeps(c, steps[..i + 1]);
    StreakCounts(c, steps[..i]);
    StreakCounts(c, steps[..i + 1]);
  }

  /** In every run a closed breaker admits every call, as an ordinary one, and stays as it was. */
  lemma ClosedAdmits(c: Config, steps: seq<Step>, wait: nat)
    requires ConfigOk(c) && Run(c, steps).b.state == Closed
    ensures var s := Run(c, steps); Do(c, s, Asks(wait)) == s.(plain := s.plain + 1, now := s.now + wait)
    ensures Run(c, steps).b.openedAt == None && !Run(c, steps).b.probing && Run(c, steps).probes == 0
  {
    RunKeeps(c, steps);
  }

  /** Ordinary calls still out when it opened do not move an open or half-open breaker. */
  lemma LateOutcomesDoNotMove(c: Config, steps: seq<Step>, success: bool, wait: nat)
    requires ConfigOk(c) && Run(c, steps).b.state != Closed && Run(c, steps).plain > 0
    ensures var s := Run(c, steps);
            var t := Do(c, s, Records(Guard(false), success, wait));
            && t == s.(b := s.b.(streak := t.b.streak), plain := s.plain - 1, now := s.now + wait)
            && t.b.streak == if success then 0 else s.b.streak + 1
  {
  }

  /** In every run the probe decides: its success closes the breaker, its failure opens it anew from then on. */
  lemma ProbeDecides(c: Config, steps: seq<Step>, success: bool, wait: nat)
    requires ConfigOk(c) && Run(c, steps).b.state == HalfOpen
    ensures var s := Run(c, steps);
            var t := Do(c, s, Records(Guard(true), success, wait));
            && s.probes == 1 && t.probes == 0 && t.plain == s.plain && t.b.trips == s.b.trips && !t.b.probing
            && (success ==> t.b.state == Closed && t.b.streak == 0 && t.b.openedAt == None)
            && (!success ==> t.b.state == Open && t.b.streak == s.b.streak && t.b.openedAt == Some(t.now))
  {
    RunKeeps(c, steps);
  }

  /** While a probe is out, or until the cooldown has passed, a call is turned away and changes nothing. */
  lemma TurnedAway(c: Config, steps: seq<Step>, wait: nat)
    requires ConfigOk(c) && Run(c, steps).b.state != Closed
    requires var s := Run(c, steps);
             s.b.state == HalfOpen || s.b.openedAt.None? || s.now + wait < s.b.openedAt.value + c.cooldown
    ensures var s := Run(c, steps); Do(c, s, Asks(wait)) == s.(now := s.now + wait)
  {
    RunKeeps(c, steps);
  }
}
