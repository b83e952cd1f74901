/** What an unanswered claim costs: when a key that nobody submits is free again. */
module BroadcastAvailability {
  import opened GuardState
  import opened BroadcastProtocol
  import opened BroadcastTheorems
  import opened BroadcastStaleness

  /** Over a shared store a claim makes its request the owner exactly when the store answers and holds no
      live record of the key. */
  lemma ClaimIsGrantedExactlyWhen(w: World, r: nat, failed: bool, applied: bool, w': World)
    requires Next(w, Claim(r, failed, applied), w')
    ensures |w'.grants| > |w.grants| <==> !failed && !w.Live(w.requests[r].key)
  {
  }

  /** No record outlives a TTL, whenever and however it was written. */
  ghost predicate WithinTtl(w: World) {
    forall k :: k in w.store ==> w.store[k].expires <= w.now + TTL
  }

  lemma StepStaysWithinTtl(w: World, e: Event, w': World)
    requires WithinTtl(w) && Next(w, e, w')
    ensures WithinTtl(w')
  {
    if e.Tick? || e.Arrive? || e.Read? || e.Look? || e.Crash? {
      ReadersKeepStore(w, e, w');
    } else if e.Release? || e.InstallPeer? || e.Attempt? || e.Decide? || e.MarkDone? {
      LocalStepsKeepStore(w, e, w');
    }
  }

  lemma ReadersKeepStore(w: World, e: Event, w': World)
    requires Next(w, e, w') && (e.Tick? || e.Arrive? || e.Read? || e.Look? || e.Crash?)
    ensures w'.store == w.store && w.now <= w'.now
  {
  }

  lemma LocalStepsKeepStore(w: World, e: Event, w': World)
    requires Next(w, e, w') && (e.Release? || e.InstallPeer? || e.Attempt? || e.Decide? || e.MarkDone?)
    ensures w'.store == w.store && w.now == w'.now
  {
  }

  lemma {:induction false} RunStaysWithinTtl(ws: seq<World>, es: seq<Event>, n: nat)
    requires Run(ws, es) && n <= |es|
    ensures WithinTtl(ws[n])
  {
    if n > 0 {
      RunStaysWithinTtl(ws, es, n - 1);
      StepStaysWithinTtl(ws[n - 1], es[n - 1], ws[n]);
    }
  }

  ghost predicate SameCell(w: World, w': World, k: Key) {
    (k in w.store <==> k in w'.store) && (k in w.store ==> w'.store[k] == w.store[k])
  }

  /** A key is free again once nothing has been written under it for a TTL, whatever was there. */
  lemma KeyIsFreeAfterTtl(ws: seq<World>, es: seq<Event>, m: nat, n: nat, k: Key)
    requires Run(ws, es) && m <= n <= |es| && ws[m].now + TTL <= ws[n].now
    requires forall t :: m <= t < n ==> SameCell(ws[t], ws[t + 1], k)
    ensures !ws[n].Live(k)
  {
    RunStaysWithinTtl(ws, es, m);
    SameCellThroughout(ws, m, n, k);
  }

  lemma {:induction false} SameCellThroughout(ws: seq<World>, m: nat, n: nat, k: Key)
    requires m <= n < |ws| && forall t :: m <= t < n ==> SameCell(ws[t], ws[t + 1], k)
    ensures SameCell(ws[m], ws[n], k)
  {
    if m < n {
      SameCellThroughout(ws, m, n - 1, k);
      assert SameCell(ws[n - 1], ws[n - 1 + 1], k);
    }
  }

  /** A claim that took effect although it reported an error leaves the key pending in the store for a
      whole TTL, with nobody to submit it. */
  lemma ClaimIsStranded(k: Key) returns (w: World)
    ensures Reachable(w) && w.shared && w.requests == map[] && w.grants == [] && w.now == 0
    ensures k in w.store && w.store[k] == Cell(PENDING, TTL)
    ensures |w.locals| == 2 && w.locals[0].records == map[]
  {
    w := TwoIdle(0);
    var id := w.next;
    ArriveIdle(w, 0, k);
    var w1 := Arrived(w, 0, k);
    var w2 := AfterClaim(w1, id, true, true);
    Extend(w1, Claim(id, true, true), w2);
    w := w2.Keep(0, Remove(w2.locals[0], k)).Done(id);
    Extend(w2, Release(id), w);
    assert w.requests == map[];
  }

  /** One nanosecond before the TTL is over, a request for that key is still told it is pending. */
  lemma StrandedIsPending(k: Key) returns (w: World, y: Reply)
    ensures Reachable(w) && w.grants == [] && w.now == TTL - 1
    ensures y in w.replies && y == Reply(k, PENDING, w.now)
  {
    w := ClaimIsStranded(k);
    w := Wait(w, TTL - 1);
    ArriveIdle(w, 0, k);
    var w1, id := Arrived(w, 0, k), w.next;
    var w2 := AfterClaim(w1, id, false, false);
    Extend(w1, Claim(id, false, false), w2);
    var w3 := w2.At(id, Installing(PENDING));
    Extend(w2, Read(id, true), w3);
    w := AfterInstall(w3, id);
    Extend(w3, InstallPeer(id), w);
    y := Reply(k, PENDING, w.now);
  }

  /** And at the end of the TTL it is submitted. */
  lemma StrandedIsSubmittedAfterTtl(k: Key, r: Record) returns (w: World)
    requires Terminal(r)
    ensures Reachable(w) && w.now == TTL && k in w.store && w.store[k] == Cell(r, 2 * TTL)
  {
    w := ClaimIsStranded(k);
    w := Wait(w, TTL);
    w := Submit(w, 0, k, r);
  }
}
