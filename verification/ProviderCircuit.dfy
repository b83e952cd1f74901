/** The security-provider circuit breaker: three counted failures in a row open it, and after the open
    window one probe at a time decides whether it closes. Permits carry the generation they were
    issued in. */
module ProviderCircuit {
  import opened Basics
  import opened FailureRuns

  const FAILURE_THRESHOLD: nat := 3
  const OPEN_DURATION: int := 30_000_000_000

  datatype Permit = Permit(generation: nat, probe: bool)

  /** openUntil is None where the source has the zero time. */
  datatype Circuit = Circuit(
    consecutiveFailures: nat, openUntil: Option<Time>, probeInFlight: bool, generation: nat, shortCircuits: nat)

  const CLOSED: Circuit := Circuit(0, None, false, 0, 0)

  function Allow(c: Circuit, now: Time): (Circuit, Option<Permit>) {
    if c.openUntil.None? then (c, Some(Permit(c.generation, false)))
    else if now < c.openUntil.value || c.probeInFlight then (c.(shortCircuits := c.shortCircuits + 1), None)
    else (c.(probeInFlight := true), Some(Permit(c.generation, true)))
  }

  function Open(c: Circuit, failures: nat, now: Time): Circuit {
    c.(consecutiveFailures := failures, openUntil := Some(now + OPEN_DURATION), probeInFlight := false,
       generation := c.generation + 1)
  }

  function Finish(c: Circuit, permit: Permit, succeeded: bool, countFailure: bool, now: Time): Circuit {
    if permit.generation != c.generation then c
    else if !succeeded && !countFailure then (if permit.probe then c.(probeInFlight := false) else c)
    else if succeeded then
      c.(consecutiveFailures := 0, openUntil := None, probeInFlight := false,
         generation := if permit.probe then c.generation + 1 else c.generation)
    else if permit.probe then Open(c, FAILURE_THRESHOLD, now)
    else if c.consecutiveFailures + 1 >= FAILURE_THRESHOLD then Open(c, c.consecutiveFailures + 1, now)
    else c.(consecutiveFailures := c.consecutiveFailures + 1)
  }

  class Breaker {
    var consecutiveFailures: nat
    var openUntil: Option<Time>
    var probeInFlight: bool
    var generation: nat
    var shortCircuits: nat

    ghost function View(): Circuit
      reads this
    {
      Circuit(consecutiveFailures, openUntil, probeInFlight, generation, shortCircuits)
    }

    constructor ()
      ensures View() == CLOSED
    {
      consecutiveFailures, openUntil, probeInFlight, generation, shortCircuits := 0, None, false, 0, 0;
    }

    method Admit(now: Time) returns (permit: Option<Permit>)
      modifies this
      ensures (View(), permit) == Allow(old(View()), now)
    {
      if openUntil.None? {
        return Some(Permit(generation, false));
      }
      if now < openUntil.value || probeInFlight {
        shortCircuits := shortCircuits + 1;
        return None;
      }
      probeInFlight := true;
      return Some(Permit(generation, true));
    }

    method Record(permit: Permit, succeeded: bool, countFailure: bool, now: Time)
      modifies this
      ensures View() == Finish(old(View()), permit, succeeded, countFailure, now)
    {
      if permit.generation != generation {
        return;
      }
      if !succeeded && !countFailure {
        if permit.probe {
          probeInFlight := false;
        }
        return;
      }
      if succeeded {
        consecutiveFailures := 0;
        openUntil := None;
        probeInFlight := false;
        if permit.probe {
          generation := generation + 1;
        }
        return;
      }
      if permit.probe {
        consecutiveFailures := FAILURE_THRESHOLD;
        openUntil := Some(now + OPEN_DURATION);
        probeInFlight := false;
        generation := generation + 1;
        return;
      }
      consecutiveFailures := consecutiveFailures + 1;
      if consecutiveFailures >= FAILURE_THRESHOLD {
        openUntil := Some(now + OPEN_DURATION);
        probeInFlight := false;
        generation := generation + 1;
      }
    }
  }

  // ----- any number of concurrent calls -----

  /** A permit in use, and when it was issued. */
  datatype Issued = Issued(permit: Permit, at: Time)

  /** counted: the outcomes, oldest first, that permits of the current generation reported and that
      count: successes, and failures that were not the caller's own cancellation. */
  datatype World = World(circuit: Circuit, now: Time, inUse: map<nat, Issued>, next: nat, counted: seq<bool>)

  datatype Event =
    | Tick(elapsed: Time)
    | Request
    | Outcome(id: nat, succeeded: bool, countFailure: bool)

  function AfterRequest(w: World): World {
    var (c, permit) := Allow(w.circuit, w.now);
    match permit
    case None => w.(circuit := c)
    case Some(p) => w.(circuit := c, inUse := w.inUse[w.next := Issued(p, w.now)], next := w.next + 1)
  }

  function AfterOutcome(w: World, id: nat, succeeded: bool, countFailure: bool): World
    requires id in w.inUse
  {
    var permit := w.inUse[id].permit;
    var c := Finish(w.circuit, permit, succeeded, countFailure, w.now);
    var counts := permit.generation == w.circuit.generation && (succeeded || countFailure);
    w.(circuit := c, inUse := w.inUse - {id},
       counted := if c.generation != w.circuit.generation then []
                  else if counts then w.counted + [succeeded] else w.counted)
  }

  ghost predicate Next(w: World, e: Event, w': World) {
    match e
    case Tick(elapsed) => elapsed > 0 && w' == w.(now := w.now + elapsed)
    case Request => w' == AfterRequest(w)
    case Outcome(id, succeeded, countFailure) => id in w.inUse && w' == AfterOutcome(w, id, succeeded, countFailure)
  }

  ghost predicate Init(w: World) {
    w.circuit == CLOSED && w.inUse == map[] && w.counted == []
  }

  ghost predicate Current(w: World, id: nat) {
    id in w.inUse && w.inUse[id].permit.generation == w.circuit.generation
  }

  ghost predicate PermitsAreIssued(w: World) {
    forall id :: id in w.inUse ==>
      id < w.next && w.inUse[id].permit.generation <= w.circuit.generation && w.inUse[id].at <= w.now
  }

  ghost predicate ClosedInv(w: World) {
    && !w.circuit.probeInFlight
    && w.circuit.consecutiveFailures == FailuresAtEnd(w.counted) < FAILURE_THRESHOLD
    && forall id :: Current(w, id) ==> !w.inUse[id].permit.probe
  }

  ghost predicate OpenInv(w: World)
    requires w.circuit.openUntil.Some?
  {
    && w.counted == []
    && (w.circuit.probeInFlight <==> exists id :: Current(w, id))
    && (forall id :: Current(w, id) ==> w.inUse[id].permit.probe && w.inUse[id].at >= w.circuit.openUntil.value)
    && forall i, j :: Current(w, i) && Current(w, j) ==> i == j
  }

  ghost predicate Inv(w: World) {
    PermitsAreIssued(w) && if w.circuit.openUntil.None? then ClosedInv(w) else OpenInv(w)
  }

  lemma RequestKeepsInv(w: World)
    requires Inv(w)
    ensures Inv(AfterRequest(w))
  {
    var w' := AfterRequest(w);
    assert forall id :: id != w.next ==> (Current(w', id) <==> Current(w, id));
    if w.circuit.openUntil.Some? && w'.circuit.probeInFlight && !w.circuit.probeInFlight {
      assert Current(w', w.next);
    }
  }

  /** An outcome that moves the circuit to a new generation leaves no permit that counts. */
  lemma NewGeneration(w: World, id: nat, succeeded: bool, countFailure: bool)
    requires PermitsAreIssued(w) && id in w.inUse
    requires AfterOutcome(w, id, succeeded, countFailure).circuit.generation != w.circuit.generation
    ensures PermitsAreIssued(AfterOutcome(w, id, succeeded, countFailure))
    ensures forall j :: !Current(AfterOutcome(w, id, succeeded, countFailure), j)
  {
  }

  /** Any other outcome only ends its own permit. */
  lemma SameGeneration(w: World, id: nat, succeeded: bool, countFailure: bool)
    requires PermitsAreIssued(w) && id in w.inUse
    requires AfterOutcome(w, id, succeeded, countFailure).circuit.generation == w.circuit.generation
    ensures PermitsAreIssued(AfterOutcome(w, id, succeeded, countFailure))
    ensures forall j :: Current(AfterOutcome(w, id, succeeded, countFailure), j) <==> Current(w, j) && j != id
  {
  }

  lemma StaleKeepsInv(w: World, id: nat, succeeded: bool, countFailure: bool)
    requires Inv(w) && id in w.inUse && !Current(w, id)
    ensures Inv(AfterOutcome(w, id, succeeded, countFailure))
  {
    var w' := AfterOutcome(w, id, succeeded, countFailure);
    SameGeneration(w, id, succeeded, countFailure);
    assert w'.circuit == w.circuit && w'.counted == w.counted;
    assert forall j :: Current(w', j) <==> Current(w, j);
  }

  lemma ClosedKeepsInv(w: World, id: nat, succeeded: bool, countFailure: bool)
    requires Inv(w) && Current(w, id) && w.circuit.openUntil.None?
    ensures Inv(AfterOutcome(w, id, succeeded, countFailure))
  {
    var w' := AfterOutcome(w, id, succeeded, countFailure);
    if w'.circuit.generation == w.circuit.generation {
      SameGeneration(w, id, succeeded, countFailure);
      OneMore(w.counted, succeeded);
    } else {
      NewGeneration(w, id, succeeded, countFailure);
    }
  }

  lemma ProbeKeepsInv(w: World, id: nat, succeeded: bool, countFailure: bool)
    requires Inv(w) && Current(w, id) && w.circuit.openUntil.Some?
    ensures Inv(AfterOutcome(w, id, succeeded, countFailure))
  {
    var w' := AfterOutcome(w, id, succeeded, countFailure);
    if w'.circuit.generation == w.circuit.generation {
      SameGeneration(w, id, succeeded, countFailure);
    } else {
      NewGeneration(w, id, succeeded, countFailure);
    }
  }

  lemma OutcomeKeepsInv(w: World, id: nat, succeeded: bool, countFailure: bool)
    requires Inv(w) && id in w.inUse
    ensures Inv(AfterOutcome(w, id, succeeded, countFailure))
  {
    if !Current(w, id) {
      StaleKeepsInv(w, id, succeeded, countFailure);
    } else if w.circuit.openUntil.None? {
      ClosedKeepsInv(w, id, succeeded, countFailure);
    } else {
      ProbeKeepsInv(w, id, succeeded, countFailure);
    }
  }

  lemma NextKeepsInv(w: World, e: Event, w': World)
    requires Inv(w) && Next(w, e, w')
    ensures Inv(w')
  {
    match e
    case Tick(elapsed) =>
      assert forall id :: Current(w', id) <==> Current(w, id);
    case Request => RequestKeepsInv(w);
    case Outcome(id, succeeded, countFailure) => OutcomeKeepsInv(w, id, succeeded, countFailure);
  }

  ghost predicate Run(ws: seq<World>, es: seq<Event>) {
    && |ws| == |es| + 1 && Init(ws[0])
    && forall n :: 0 <= n < |es| ==> Next(ws[n], es[n], ws[n + 1])
  }

  ghost predicate Reachable(w: World) {
    exists ws, es :: Run(ws, es) && ws[|es|] == w
  }

  lemma {:induction false} RunKeepsInv(ws: seq<World>, es: seq<Event>, n: nat)
    requires Run(ws, es) && n <= |es|
    ensures Inv(ws[n])
  {
    if n > 0 {
      RunKeepsInv(ws, es, n - 1);
      NextKeepsInv(ws[n - 1], es[n - 1], ws[n]);
    } else {
      assert forall id :: !Current(ws[0], id);
    }
  }

  lemma ReachableInv(w: World)
    requires Reachable(w)
    ensures Inv(w)
  {
    var ws, es :| Run(ws, es) && ws[|es|] == w;
    RunKeepsInv(ws, es, |es|);
  }

  // ----- what the breaker promises -----

  /** While the circuit is open, the permits that still count are at most one: the probe, in use
      exactly while the flag says so, and issued after the open window. */
  lemma OpenAdmitsOneProbe(w: World)
    requires Reachable(w) && w.circuit.openUntil.Some?
    ensures w.circuit.probeInFlight <==> exists id :: Current(w, id)
    ensures forall id :: Current(w, id) ==> w.inUse[id].permit.probe && w.inUse[id].at >= w.circuit.openUntil.value
    ensures forall i, j :: Current(w, i) && Current(w, j) ==> i == j
  {
    ReachableInv(w);
  }

  /** An open circuit closes exactly when its own probe succeeds; the probe was issued after the open
      window. */
  lemma ClosesExactlyByProbe(w: World, e: Event, w': World)
    requires Reachable(w) && w.circuit.openUntil.Some? && Next(w, e, w')
    ensures w'.circuit.openUntil.None? <==> e.Outcome? && e.succeeded && Current(w, e.id)
    ensures w'.circuit.openUntil.None? ==>
              w.inUse[e.id].permit.probe && w.inUse[e.id].at >= w.circuit.openUntil.value
  {
    ReachableInv(w);
    assert e.Outcome? && w'.circuit.openUntil.None? ==> Current(w, e.id);
  }

  /** A closed circuit opens exactly when the outcome just reported counts and makes the counted
      outcomes of its generation end in three failures. */
  lemma OpensExactlyAfterThreeFailures(w: World, e: Event, w': World)
    requires Reachable(w) && w.circuit.openUntil.None? && Next(w, e, w')
    ensures w'.circuit.openUntil.Some? <==>
              && e.Outcome? && Current(w, e.id) && !e.succeeded && e.countFailure
              && EndsInThreeFailures(w.counted + [false])
    ensures w'.circuit.openUntil.Some? ==> w'.circuit.openUntil.value == w.now + OPEN_DURATION
  {
    ReachableInv(w);
    ThreeFailuresAtEnd(w.counted + [false]);
    OneMore(w.counted, false);
    assert e.Outcome? && w.inUse[e.id].permit.generation == w.circuit.generation ==> Current(w, e.id);
  }

  /** A permit of an earlier generation changes nothing, whatever it reports; and a cancelled call
      changes nothing but the probe flag of its own probe. */
  lemma StaleAndCancelledDoNotCount(w: World, id: nat, succeeded: bool, countFailure: bool)
    requires Reachable(w) && id in w.inUse
    ensures var w' := AfterOutcome(w, id, succeeded, countFailure);
            && (!Current(w, id) ==> w'.circuit == w.circuit && w'.counted == w.counted)
            && (!succeeded && !countFailure ==>
                  && w'.counted == w.counted && w'.circuit.(probeInFlight := w.circuit.probeInFlight) == w.circuit
                  && (w'.circuit != w.circuit ==> w.inUse[id].permit.probe && Current(w, id)))
  {
    ReachableInv(w);
  }

  // ----- when the breaker lets a request through -----

  /** A request gets a permit exactly when the circuit is closed, or its open window is over and no permit
      that counts is in use; what it gets is a probe exactly when the circuit is open. */
  lemma AdmitsExactlyWhen(w: World, w': World)
    requires Reachable(w) && Next(w, Request, w')
    ensures w.next !in w.inUse
    ensures w'.inUse == (if w.next in w'.inUse then
                           w.inUse[w.next := Issued(Permit(w.circuit.generation, w.circuit.openUntil.Some?), w.now)]
                         else w.inUse)
    ensures w.next in w'.inUse <==>
              || w.circuit.openUntil.None?
              || (w.now >= w.circuit.openUntil.value && forall id :: !Current(w, id))
    ensures w'.circuit.shortCircuits == w.circuit.shortCircuits + if w.next in w'.inUse then 0 else 1
  {
    ReachableInv(w);
  }

  /** A new generation begins exactly when the deadline moves: when the circuit opens, opens again or
      closes. Every permit issued before is void from then on. */
  lemma GenerationFollowsDeadline(w: World, e: Event, w': World)
    requires Reachable(w) && Next(w, e, w')
    ensures w'.circuit.generation
            == w.circuit.generation + if w'.circuit.openUntil == w.circuit.openUntil then 0 else 1
    ensures w'.circuit.openUntil != w.circuit.openUntil ==> forall id :: !Current(w', id)
  {
    ReachableInv(w);
    if e.Outcome? {
      assert w.inUse[e.id].permit.generation == w.circuit.generation ==> Current(w, e.id);
      if w'.circuit.generation != w.circuit.generation {
        NewGeneration(w, e.id, e.succeeded, e.countFailure);
      }
    }
  }

  /** How the deadline of an open circuit moves: a counted failure of its probe sets it thirty seconds
      ahead, a success of its probe removes it, and nothing else touches it. */
  lemma DeadlineMoves(w: World, e: Event, w': World)
    requires Reachable(w) && w.circuit.openUntil.Some? && Next(w, e, w')
    ensures w'.circuit.openUntil ==
            if e.Outcome? && Current(w, e.id) && e.succeeded then None
            else if e.Outcome? && Current(w, e.id) && e.countFailure then Some(w.now + 30_000_000_000)
            else w.circuit.openUntil
  {
    ReachableInv(w);
    assert e.Outcome? && w.inUse[e.id].permit.generation == w.circuit.generation ==> Current(w, e.id);
  }

  lemma PrefixReaches(ws: seq<World>, es: seq<Event>, n: nat)
    requires Run(ws, es) && n <= |es|
    ensures Reachable(ws[n])
  {
    assert Run(ws[..n + 1], es[..n]) && ws[..n + 1][|es[..n]|] == ws[n];
  }

  /** A failure that counts and leaves the circuit open sets the deadline, and before that deadline nothing
      moves it. */
  lemma {:induction false} DeadlineHolds(ws: seq<World>, es: seq<Event>, m: nat, n: nat)
    requires Run(ws, es) && m < n <= |es|
    requires es[m].Outcome? && Current(ws[m], es[m].id) && !es[m].succeeded && es[m].countFailure
    requires ws[m + 1].circuit.openUntil.Some? && ws[n].now < ws[m].now + 30_000_000_000
    ensures ws[n].circuit.openUntil == Some(ws[m].now + 30_000_000_000)
  {
    PrefixReaches(ws, es, n - 1);
    assert Next(ws[n - 1], es[n - 1], ws[n]);
    if n == m + 1 {
      if ws[m].circuit.openUntil.Some? {
        DeadlineMoves(ws[m], es[m], ws[n]);
      } else {
        OpensExactlyAfterThreeFailures(ws[m], es[m], ws[n]);
      }
    } else {
      DeadlineHolds(ws, es, m, n - 1);
      OpenAdmitsOneProbe(ws[n - 1]);
      ReachableInv(ws[n - 1]);
      DeadlineMoves(ws[n - 1], es[n - 1], ws[n]);
    }
  }

  /** So after such a failure, of a closed circuit or of a probe, no request is let through for thirty
      seconds. */
  lemma NoPermitWhileShut(ws: seq<World>, es: seq<Event>, m: nat, n: nat)
    requires Run(ws, es) && m < n < |es| && es[n] == Request
    requires es[m].Outcome? && Current(ws[m], es[m].id) && !es[m].succeeded && es[m].countFailure
    requires ws[m + 1].circuit.openUntil.Some? && ws[n].now < ws[m].now + 30_000_000_000
    ensures ws[n + 1].inUse == ws[n].inUse
  {
    DeadlineHolds(ws, es, m, n);
    PrefixReaches(ws, es, n);
    assert Next(ws[n], es[n], ws[n + 1]);
    AdmitsExactlyWhen(ws[n], ws[n + 1]);
  }
}
