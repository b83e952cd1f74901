/** One upstream endpoint: its circuit, and the ring of its latest latency samples. Both refine the
    endpoint's whole history of calls. */
module UpstreamEndpoint {
  import opened Basics
  import opened FailureRuns

  const FAIL_THRESHOLD: nat := 3
  const OPEN_DURATION: int := 30_000_000_000
  const LATENCY_WINDOW_SIZE: nat := 256

  /** One recorded call: whether it succeeded, when it ended, and how long it took in milliseconds. */
  datatype Call = Call(succeeded: bool, at: Time, latencyMs: int)

  /** The outcomes and latencies of every call, oldest first, and when the last one ended. */
  datatype History = History(outcomes: seq<bool>, latencies: seq<int>, lastAt: Time)

  const NO_CALLS: History := History([], [], 0)

  function Append(h: History, c: Call): History {
    History(h.outcomes + [c.succeeded], h.latencies + [c.latencyMs], c.at)
  }

  /** When the circuit is to close again; None where the source has the zero time. */
  function OpenUntil(h: History): Option<Time> {
    if FailuresAtEnd(h.outcomes) >= FAIL_THRESHOLD then Some(h.lastAt + OPEN_DURATION) else None
  }

  predicate IsOpen(h: History, now: Time) {
    OpenUntil(h).Some? && OpenUntil(h).value > now
  }

  /** A circuit is open exactly during the thirty seconds after a third failure in a row, or a later
      one. */
  lemma OpenExactlyAfterThreeFailures(h: History, now: Time)
    ensures IsOpen(h, now) <==> EndsInThreeFailures(h.outcomes) && now < h.lastAt + OPEN_DURATION
  {
    ThreeFailuresAtEnd(h.outcomes);
  }

  function Clamped(latencyMs: int): nat {
    if latencyMs > 0 then latencyMs else 0
  }

  /** The last of the latencies, at most a window of them, oldest first. */
  function Window(latencies: seq<int>): (s: seq<int>) {
    var n := if |latencies| < LATENCY_WINDOW_SIZE then |latencies| else LATENCY_WINDOW_SIZE;
    seq(n, i requires 0 <= i < n => Clamped(latencies[|latencies| - n + i]))
  }

  /** Where the i-th latency of the history is kept. */
  function Slot(i: nat): nat {
    i % LATENCY_WINDOW_SIZE
  }

  /** The slots hold the latest latencies, at most one each. */
  ghost predicate Ring(samples: seq<int>, latencies: seq<int>) {
    && |samples| == LATENCY_WINDOW_SIZE
    && forall i :: 0 <= i < |latencies| && |latencies| - LATENCY_WINDOW_SIZE <= i ==>
         samples[Slot(i)] == Clamped(latencies[i])
  }

  lemma RingOneMore(samples: seq<int>, latencies: seq<int>, latencyMs: int)
    requires Ring(samples, latencies)
    ensures Ring(samples[Slot(|latencies|) := Clamped(latencyMs)], latencies + [latencyMs])
  {
    var n := |latencies|;
    var after := samples[Slot(n) := Clamped(latencyMs)];
    forall i | 0 <= i < n + 1 && n + 1 - LATENCY_WINDOW_SIZE <= i
      ensures after[Slot(i)] == Clamped((latencies + [latencyMs])[i])
    {
      if i < n {
        assert Slot(i) != Slot(n);
        assert samples[Slot(i)] == Clamped(latencies[i]);
      }
    }
  }

  class Endpoint {
    const url: string
    var fails: nat
    var openUntil: Option<Time>
    var successes: nat
    var failures: nat
    var lastLatencyMs: int
    const latencySamples: array<int>
    var latencySampleCount: nat
    var latencySampleNext: nat
    ghost var history: History

    ghost predicate CircuitValid()
      reads this
    {
      && fails == FailuresAtEnd(history.outcomes)
      && openUntil == OpenUntil(history)
      && successes + failures == |history.outcomes|
      && (history.latencies != [] ==> lastLatencyMs == history.latencies[|history.latencies| - 1])
    }

    ghost predicate RingValid()
      reads this, latencySamples
    {
      && latencySamples.Length == LATENCY_WINDOW_SIZE
      && var n := |history.latencies|;
         && latencySampleCount == (if n < LATENCY_WINDOW_SIZE then n else LATENCY_WINDOW_SIZE)
         && latencySampleNext == n % LATENCY_WINDOW_SIZE
         && Ring(latencySamples[..], history.latencies)
    }

    ghost predicate Valid()
      reads this, latencySamples
    {
      CircuitValid() && RingValid()
    }

    constructor (url: string)
      ensures Valid() && history == NO_CALLS && this.url == url && fresh(latencySamples)
    {
      this.url := url;
      fails, openUntil, successes, failures, lastLatencyMs := 0, None, 0, 0, 0;
      latencySamples := new int[LATENCY_WINDOW_SIZE](_ => 0);
      latencySampleCount, latencySampleNext, history := 0, 0, NO_CALLS;
    }

    method CircuitOpen(now: Time) returns (open: bool)
      requires CircuitValid()
      ensures open <==> IsOpen(history, now)
    {
      open := openUntil.Some? && openUntil.value > now;
    }

    method RecordFailure(latencyMs: int, now: Time)
      requires Valid()
      modifies this, latencySamples
      ensures Valid() && history == Append(old(history), Call(false, now, latencyMs))
      ensures history.outcomes == old(history).outcomes + [false]
      ensures history.latencies == old(history).latencies + [latencyMs] && history.lastAt == now
    {
      ghost var call := Call(false, now, latencyMs);
      OneMore(history.outcomes, call.succeeded);
      fails := fails + 1;
      failures := failures + 1;
      lastLatencyMs := latencyMs;
      RecordLatency(latencyMs, call);
      if fails >= FAIL_THRESHOLD {
        openUntil := Some(now + OPEN_DURATION);
      }
    }

    method RecordSuccess(latencyMs: int, now: Time)
      requires Valid()
      modifies this, latencySamples
      ensures Valid() && history == Append(old(history), Call(true, now, latencyMs))
      ensures history.outcomes == old(history).outcomes + [true]
      ensures history.latencies == old(history).latencies + [latencyMs] && history.lastAt == now
    {
      ghost var call := Call(true, now, latencyMs);
      OneMore(history.outcomes, call.succeeded);
      fails := 0;
      openUntil := None;
      successes := successes + 1;
      lastLatencyMs := latencyMs;
      RecordLatency(latencyMs, call);
    }

    method RecordLatency(latencyMs: int, ghost call: Call)
      requires RingValid() && call.latencyMs == latencyMs
      modifies this`latencySampleNext, this`latencySampleCount, this`history, latencySamples
      ensures RingValid() && history == Append(old(history), call)
    {
      RingOneMore(latencySamples[..], history.latencies, latencyMs);
      latencySamples[latencySampleNext] := if latencyMs > 0 then latencyMs else 0;
      latencySampleNext := (latencySampleNext + 1) % LATENCY_WINDOW_SIZE;
      if latencySampleCount < LATENCY_WINDOW_SIZE {
        latencySampleCount := latencySampleCount + 1;
      }
      history := Append(history, call);
    }

    /** The samples, oldest first: exactly the latest of the history. */
    method Latencies() returns (samples: array<int>)
      requires RingValid()
      ensures samples[..] == Window(history.latencies)
      ensures var n := |history.latencies|;
              && samples.Length == (if n < 256 then n else 256)
              && forall i :: 0 <= i < samples.Length ==>
                   var ms := history.latencies[n - samples.Length + i]; samples[i] == if ms < 0 then 0 else ms
    {
      samples := new int[latencySampleCount];
      if latencySampleCount == 0 {
        return;
      }
      var start := 0;
      if latencySampleCount == LATENCY_WINDOW_SIZE {
        start := latencySampleNext;
      }
      ghost var oldest, ring := |history.latencies| - latencySampleCount, latencySamples[..];
      for i := 0 to latencySampleCount
        invariant fresh(samples) && latencySamples[..] == ring
        invariant forall j :: 0 <= j < i ==> samples[j] == Clamped(history.latencies[oldest + j])
      {
        OldestSlot(|history.latencies|, i);
        assert ring[Slot(oldest + i)] == Clamped(history.latencies[oldest + i]);
        samples[i] := latencySamples[(start + i) % LATENCY_WINDOW_SIZE];
      }
    }
  }

  /** A full ring begins at the next slot to be written. */
  lemma OldestSlot(total: nat, i: nat)
    ensures total >= LATENCY_WINDOW_SIZE ==>
              (total % LATENCY_WINDOW_SIZE + i) % LATENCY_WINDOW_SIZE
              == (total - LATENCY_WINDOW_SIZE + i) % LATENCY_WINDOW_SIZE
  {
  }
}
