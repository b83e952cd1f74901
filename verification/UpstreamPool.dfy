/** A pool of upstream endpoints: rotation over the primaries, failover for reads, and at most one
    attempt for writes. */
module UpstreamPool {
  import opened Basics
  import opened UpstreamEndpoint

  /** What an endpoint does with a request: it answers (with a result or an error of its own), it
      answers that it does not serve this network, or the exchange fails. */
  datatype Reply = Result(body: string) | NodeError(message: string) | Routing | Failure

  /** What would happen if an endpoint were asked: its reply, how long it takes, and whether the caller
      has given up by then. */
  datatype Attempt = Attempt(reply: Reply, latencyMs: int, abandoned: bool)

  predicate Answers(r: Reply) {
    r.Result? || r.NodeError?
  }

  // ----- rotation -----

  /** The order in which a call visits n endpoints, the primaries rotated to begin at start. */
  function Order(n: nat, primaries: nat, start: nat): (order: seq<nat>)
    requires primaries <= n && (primaries > 1 ==> start < primaries)
    ensures |order| == n
    ensures forall j :: 0 <= j < n ==> order[j] < n
  {
    seq(n, j requires 0 <= j < n => if primaries > 1 && j < primaries then Turn(primaries, start, j) else j)
  }

  function Turn(primaries: nat, start: nat, j: nat): (i: nat)
    requires start < primaries && j < primaries
    ensures i < primaries && i == (start + j) % primaries
  {
    WrapOnce(start + j, primaries);
    if start + j < primaries then start + j else start + j - primaries
  }

  lemma WrapOnce(x: nat, m: nat)
    requires x < 2 * m
    ensures x % m == if x < m then x else x - m
  {
  }

  predicate Distinct(s: seq<nat>) {
    forall i, j :: 0 <= i < j < |s| ==> s[i] != s[j]
  }

  /** Every endpoint is visited exactly once, and the failover targets keep their place. */
  lemma OrderIsPermutation(n: nat, primaries: nat, start: nat)
    requires primaries <= n && (primaries > 1 ==> start < primaries)
    ensures Distinct(Order(n, primaries, start))
    ensures forall i :: 0 <= i < n ==> i in Order(n, primaries, start)
    ensures forall j :: primaries <= j < n ==> Order(n, primaries, start)[j] == j
  {
    var order := Order(n, primaries, start);
    forall i | 0 <= i < n
      ensures i in order
    {
      var j := if primaries > 1 && i < primaries then (if i >= start then i - start else i - start + primaries) else i;
      assert order[j] == i;
    }
  }

  /** The first primary of the k-th call after one that began at start. */
  function Leads(primaries: nat, start: nat, k: nat): (i: nat)
    requires start < primaries
    ensures i < primaries
  {
    if k == 0 then start else (Leads(primaries, start, k - 1) + 1) % primaries
  }

  lemma {:induction false} LeadsTurn(primaries: nat, start: nat, k: nat)
    requires start < primaries && k < primaries
    ensures Leads(primaries, start, k) == Turn(primaries, start, k)
  {
    if k > 0 {
      LeadsTurn(primaries, start, k - 1);
      WrapOnce(Leads(primaries, start, k - 1) + 1, primaries);
    }
  }

  /** Among as many consecutive calls as there are primaries, each primary leads exactly one: it comes first
      in that call's order, and in no other's. */
  lemma EachPrimaryLeadsOnce(n: nat, primaries: nat, start: nat, i: nat) returns (k: nat)
    requires 1 < primaries <= n && start < primaries && i < primaries
    ensures k < primaries && Order(n, primaries, Leads(primaries, start, k))[0] == i
    ensures forall j :: 0 <= j < primaries && Order(n, primaries, Leads(primaries, start, j))[0] == i ==> j == k
    ensures Order(n, primaries, start)[0] == start
  {
    k := if i >= start then i - start else i - start + primaries;
    LeadsTurn(primaries, start, k);
    forall j | 0 <= j < primaries && Order(n, primaries, Leads(primaries, start, j))[0] == i
      ensures j == k
    {
      LeadsTurn(primaries, start, j);
    }
  }

  // ----- which endpoints a call may ask -----

  /** The clock as a call reads it: check[j] before the j-th visit, end[j] after its attempt. */
  datatype Clock = Clock(check: nat -> Time, end: nat -> Time)

  predicate Indexed(order: seq<nat>, n: nat) {
    forall j :: 0 <= j < |order| ==> order[j] < n
  }

  /** The first count endpoints of the order whose circuit is closed when the call comes to them. */
  function Eligible(order: seq<nat>, hs: seq<History>, clock: Clock, count: nat): (es: seq<nat>)
    requires count <= |order| && Indexed(order, |hs|)
    ensures Indexed(es, |hs|)
  {
    if count == 0 then []
    else
      var es := Eligible(order, hs, clock, count - 1);
      if IsOpen(hs[order[count - 1]], clock.check(count - 1)) then es else es + [order[count - 1]]
  }

  /** Eligible, said without recursion: whom the call found closed, in the order of its visits. */
  lemma {:induction false} EligibleExactly(order: seq<nat>, hs: seq<History>, clock: Clock, count: nat)
    requires count <= |order| && Indexed(order, |hs|) && Distinct(order)
    ensures Distinct(Eligible(order, hs, clock, count))
    ensures forall e :: e in Eligible(order, hs, clock, count) <==>
              exists j :: 0 <= j < count && order[j] == e && !IsOpen(hs[e], clock.check(j))
    decreases count
  {
    if count > 0 {
      EligibleExactly(order, hs, clock, count - 1);
      var es, i := Eligible(order, hs, clock, count - 1), order[count - 1];
      assert i !in es;
      var all := Eligible(order, hs, clock, count);
      assert forall e :: e in all <==> e in es || (e == i && !IsOpen(hs[i], clock.check(count - 1)));
    }
  }

  /** The record an attempt at the j-th visit leaves. */
  function CallOf(a: Attempt, clock: Clock, j: nat): Call {
    Call(Answers(a.reply), clock.end(j), a.latencyMs)
  }

  /** The first visits of a call asked every endpoint whose circuit was closed, and recorded that; all
      the others are as they were. */
  ghost predicate Recorded(order: seq<nat>, hs: seq<History>, hs': seq<History>, attempts: seq<Attempt>, clock: Clock,
                           visits: nat)
    requires Indexed(order, |hs|) && |attempts| == |hs|
  {
    && |hs'| == |hs|
    && forall j :: 0 <= j < |order| ==>
         hs'[order[j]] == VisitRecord(hs[order[j]], attempts[order[j]], clock, j, visits)
  }

  function VisitRecord(h: History, a: Attempt, clock: Clock, j: nat, visits: nat): History {
    if j < visits && !IsOpen(h, clock.check(j)) then Append(h, CallOf(a, clock, j)) else h
  }

  /** A failed exchange ends the call when its caller is gone; a routing refusal does not. */
  predicate GivesUp(a: Attempt) {
    a.reply.Failure? && a.abandoned
  }

  predicate GoesOn(a: Attempt) {
    !Answers(a.reply) && !GivesUp(a)
  }

  predicate AllGoOn(asked: seq<nat>, attempts: seq<Attempt>)
    requires Indexed(asked, |attempts|)
  {
    forall k :: 0 <= k < |asked| ==> GoesOn(attempts[asked[k]])
  }

  function Outcome(a: Attempt): Option<Reply> {
    if Answers(a.reply) then Some(a.reply) else None
  }

  /** What a write may do: the first endpoint whose circuit is closed is asked, whatever comes of it, and
      no other; none is asked only if all circuits are open. */
  ghost predicate AskedOnce(order: seq<nat>, hs: seq<History>, hs': seq<History>, attempts: seq<Attempt>, clock: Clock,
                            asked: Option<nat>, outcome: Option<Reply>)
    requires Indexed(order, |hs|) && |attempts| == |hs|
  {
    var eligible := Eligible(order, hs, clock, |order|);
    if eligible == [] then asked.None? && outcome.None? && hs' == hs
    else
      var i := eligible[0];
      && asked == Some(i) && outcome == Outcome(attempts[i])
      && exists j :: 0 <= j < |order| && order[j] == i && hs' == hs[i := Append(hs[i], CallOf(attempts[i], clock, j))]
  }

  /** What a read may do: the endpoints whose circuits are closed are asked in order, each once, until
      one answers, or the caller is gone, or none is left. */
  ghost predicate AskedInTurn(order: seq<nat>, hs: seq<History>, hs': seq<History>, attempts: seq<Attempt>,
                              clock: Clock, asked: seq<nat>, outcome: Option<Reply>, visits: nat)
    requires Indexed(order, |hs|) && |attempts| == |hs|
  {
    && visits <= |order| && asked == Eligible(order, hs, clock, visits)
    && Recorded(order, hs, hs', attempts, clock, visits)
    && (if asked == [] then outcome.None? && visits == |order|
        else
          var last := attempts[asked[|asked| - 1]];
          && AllGoOn(asked[..|asked| - 1], attempts) && outcome == Outcome(last)
          && (GoesOn(last) ==> visits == |order|))
  }

  function NonBlank(urls: seq<string>): seq<string> {
    if urls == [] then []
    else NonBlank(urls[..|urls| - 1]) + (if urls[|urls| - 1] == "" then [] else [urls[|urls| - 1]])
  }

  /** Exactly the blank ones are dropped, */
  lemma {:induction false} BlanksAreDropped(urls: seq<string>, u: string)
    ensures multiset(NonBlank(urls))[u] == if u == "" then 0 else multiset(urls)[u]
  {
    if urls != [] {
      var init, last := urls[..|urls| - 1], urls[|urls| - 1];
      BlanksAreDropped(init, u);
      assert urls == init + [last];
    }
  }

  /** and the others keep their order. */
  lemma {:induction false} OthersKeepOrder(front: seq<string>, back: seq<string>)
    ensures NonBlank(front + back) == NonBlank(front) + NonBlank(back)
  {
    if back == [] {
      assert front + back == front;
    } else {
      OthersKeepOrder(front, back[..|back| - 1]);
      assert (front + back)[..|front + back| - 1] == front + back[..|back| - 1];
    }
  }

  function Urls(es: seq<Endpoint>): (us: seq<string>) {
    seq(|es|, i requires 0 <= i < |es| => es[i].url)
  }

  /** The endpoints are different objects, made of what is in the footprint. */
  ghost predicate Apart(es: seq<Endpoint>, footprint: set<object>) {
    && (forall i :: 0 <= i < |es| ==> es[i] in footprint && es[i].latencySamples in footprint)
    && forall i, j :: 0 <= i < j < |es| ==> es[i] != es[j] && es[i].latencySamples != es[j].latencySamples
  }

  method NewEndpoints(urls: seq<string>) returns (es: seq<Endpoint>, ghost footprint: set<object>)
    ensures fresh(footprint) && Apart(es, footprint)
    ensures forall i :: 0 <= i < |es| ==> es[i].Valid() && es[i].history == NO_CALLS
    ensures Urls(es) == NonBlank(urls)
  {
    es, footprint := [], {};
    for n := 0 to |urls|
      invariant fresh(footprint) && Apart(es, footprint)
      invariant forall i :: 0 <= i < |es| ==> es[i].Valid() && es[i].history == NO_CALLS
      invariant Urls(es) == NonBlank(urls[..n])
    {
      assert urls[..n + 1][..n] == urls[..n];
      if urls[n] != "" {
        var e := new Endpoint(urls[n]);
        assert Urls(es + [e]) == Urls(es) + [urls[n]];
        es, footprint := es + [e], footprint + {e, e.latencySamples};
      }
    }
    assert urls[..|urls|] == urls;
  }

  class Pool {
    const eps: seq<Endpoint>
    const roundRobinPrefix: nat
    var nextPrimary: nat

    ghost const footprint: set<object>

    ghost predicate Separate() {
      Apart(eps, footprint) && this !in footprint && roundRobinPrefix <= |eps|
    }

    ghost predicate Valid()
      reads this, footprint
    {
      && Separate()
      && (roundRobinPrefix > 1 ==> nextPrimary < roundRobinPrefix)
      && forall i :: 0 <= i < |eps| ==> eps[i].Valid()
    }

    ghost predicate CircuitsValid()
      reads this, footprint
    {
      Separate() && forall i :: 0 <= i < |eps| ==> eps[i].CircuitValid()
    }

    ghost function Histories(): (hs: seq<History>)
      requires Separate()
      reads footprint
      ensures |hs| == |eps|
      ensures forall i :: 0 <= i < |eps| ==> hs[i] == eps[i].history
    {
      seq(|eps|, i requires 0 <= i < |eps| && Separate() reads footprint => eps[i].history)
    }

    /** Blank addresses are dropped, and the primaries are at most what is left. */
    constructor (urls: seq<string>, prefixCount: int)
      ensures Valid() && fresh(footprint)
      ensures nextPrimary == 0 && forall i :: 0 <= i < |eps| ==> eps[i].history == NO_CALLS
      ensures Urls(eps) == NonBlank(urls)
      ensures roundRobinPrefix == if prefixCount < 0 then 0 else if prefixCount < |eps| then prefixCount else |eps|
    {
      var es, objects := NewEndpoints(urls);
      eps, footprint := es, objects;
      roundRobinPrefix := if prefixCount < 0 then 0 else if prefixCount < |es| then prefixCount else |es|;
      nextPrimary := 0;
    }

    method EndpointsForCall() returns (order: seq<nat>)
      requires Valid()
      modifies this`nextPrimary
      ensures Valid()
      ensures order == Order(|eps|, roundRobinPrefix, old(nextPrimary))
      ensures nextPrimary == if roundRobinPrefix <= 1 then old(nextPrimary)
                             else (old(nextPrimary) + 1) % roundRobinPrefix
    {
      if roundRobinPrefix <= 1 {
        return seq(|eps|, j => j);
      }
      var start := nextPrimary % roundRobinPrefix;
      WrapOnce(nextPrimary, roundRobinPrefix);
      nextPrimary := (nextPrimary + 1) % roundRobinPrefix;
      order := [];
      for offset := 0 to roundRobinPrefix
        invariant order == Order(|eps|, roundRobinPrefix, start)[..offset]
      {
        assert Turn(roundRobinPrefix, start, offset) == (start + offset) % roundRobinPrefix;
        order := order + [(start + offset) % roundRobinPrefix];
      }
      order := order + seq(|eps| - roundRobinPrefix, j => roundRobinPrefix + j);
    }

    method CircuitOpen(i: nat, now: Time) returns (open: bool)
      requires CircuitsValid() && i < |eps|
      ensures open <==> IsOpen(Histories()[i], now)
    {
      open := eps[i].CircuitOpen(now);
    }

    /** Ask endpoint i and record the outcome. */
    method Ask(i: nat, a: Attempt, now: Time)
      requires Valid() && i < |eps|
      modifies footprint
      ensures Valid()
      ensures Histories() == old(Histories())[i :=
                Append(old(Histories())[i], Call(Answers(a.reply), now, a.latencyMs))]
    {
      if Answers(a.reply) {
        eps[i].RecordSuccess(a.latencyMs, now);
      } else {
        eps[i].RecordFailure(a.latencyMs, now);
      }
    }

    method CallOnce(attempts: seq<Attempt>, clock: Clock) returns (asked: Option<nat>, outcome: Option<Reply>)
      requires Valid() && |attempts| == |eps|
      modifies this`nextPrimary, footprint
      ensures Valid()
      ensures AskedOnce(Order(|eps|, roundRobinPrefix, old(nextPrimary)), old(Histories()), Histories(),
                        attempts, clock, asked, outcome)
    {
      var order := EndpointsForCall();
      asked, outcome := AskFirst(order, attempts, clock);
    }

    method AskFirst(order: seq<nat>, attempts: seq<Attempt>, clock: Clock)
      returns (asked: Option<nat>, outcome: Option<Reply>)
      requires Valid() && |attempts| == |eps| && Indexed(order, |eps|)
      modifies footprint
      ensures Valid()
      ensures AskedOnce(order, old(Histories()), Histories(), attempts, clock, asked, outcome)
    {
      var j := FirstClosed(order, clock);
      if j == |order| {
        return None, None;
      }
      var i := order[j];
      FirstAsked(order, Histories(), attempts, clock, j);
      Ask(i, attempts[i], clock.end(j));
      return Some(i), Outcome(attempts[i]);
    }

    /** Skip the endpoints whose circuit is open. */
    method FirstClosed(order: seq<nat>, clock: Clock) returns (j: nat)
      requires CircuitsValid() && Indexed(order, |eps|)
      ensures StopsAt(order, Histories(), clock, j)
    {
      ghost var hs := Histories();
      j := 0;
      while j < |order|
        invariant Skips(order, hs, clock, j)
      {
        var open := CircuitOpen(order[j], clock.check(j));
        if !open {
          return;
        }
        j := j + 1;
      }
    }

    method CallWithFailover(attempts: seq<Attempt>, clock: Clock)
      returns (asked: seq<nat>, outcome: Option<Reply>, ghost visits: nat)
      requires Valid() && |attempts| == |eps|
      modifies this`nextPrimary, footprint
      ensures Valid()
      ensures AskedInTurn(Order(|eps|, roundRobinPrefix, old(nextPrimary)), old(Histories()), Histories(),
                          attempts, clock, asked, outcome, visits)
    {
      OrderIsPermutation(|eps|, roundRobinPrefix, nextPrimary);
      var order := EndpointsForCall();
      asked, outcome, visits := AskInTurn(order, attempts, clock);
    }

    method AskInTurn(order: seq<nat>, attempts: seq<Attempt>, clock: Clock)
      returns (asked: seq<nat>, outcome: Option<Reply>, ghost visits: nat)
      requires Valid() && |attempts| == |eps| && Indexed(order, |eps|) && Distinct(order)
      modifies footprint
      ensures Valid()
      ensures AskedInTurn(order, old(Histories()), Histories(), attempts, clock, asked, outcome, visits)
    {
      ghost var hs := Histories();
      asked, visits := [], 0;
      for j := 0 to |order|
        invariant Valid() && visits == j
        invariant Underway(order, hs, Histories(), attempts, clock, asked, j)
      {
        var done;
        visits := j + 1;
        asked, done := Visit(order, attempts, clock, asked, j, hs);
        if done {
          return asked, Outcome(attempts[order[j]]), visits;
        }
      }
      NoneLeft(order, hs, Histories(), attempts, clock, asked);
      return asked, None, visits;
    }

    /** One visit of a read: done if it was asked and ended the call. */
    method Visit(order: seq<nat>, attempts: seq<Attempt>, clock: Clock, asked: seq<nat>, j: nat, ghost hs: seq<History>)
      returns (asked': seq<nat>, done: bool)
      requires Valid() && |attempts| == |eps| == |hs| && Indexed(order, |eps|) && Distinct(order) && j < |order|
      requires Underway(order, hs, Histories(), attempts, clock, asked, j)
      modifies footprint
      ensures Valid()
      ensures if done then
                AskedInTurn(order, hs, Histories(), attempts, clock, asked', Outcome(attempts[order[j]]), j + 1)
              else Underway(order, hs, Histories(), attempts, clock, asked', j + 1)
    {
      var i := order[j];
      VisitOutcome(order, hs, Histories(), attempts, clock, asked, j);
      var open := CircuitOpen(i, clock.check(j));
      if open {
        return asked, false;
      }
      Ask(i, attempts[i], clock.end(j));
      return asked + [i], !GoesOn(attempts[i]);
    }
  }

  /** A read after its first visits, none of which ended it. */
  ghost predicate Underway(order: seq<nat>, hs: seq<History>, now: seq<History>, attempts: seq<Attempt>, clock: Clock,
                           asked: seq<nat>, visits: nat)
    requires Indexed(order, |hs|) && |attempts| == |hs|
  {
    && visits <= |order| && asked == Eligible(order, hs, clock, visits) && AllGoOn(asked, attempts)
    && Recorded(order, hs, now, attempts, clock, visits)
  }

  lemma NoneLeft(order: seq<nat>, hs: seq<History>, now: seq<History>, attempts: seq<Attempt>, clock: Clock,
                 asked: seq<nat>)
    requires Indexed(order, |hs|) && |attempts| == |hs|
    requires Underway(order, hs, now, attempts, clock, asked, |order|)
    ensures AskedInTurn(order, hs, now, attempts, clock, asked, None, |order|)
  {
  }

  lemma VisitOutcome(order: seq<nat>, hs: seq<History>, now: seq<History>, attempts: seq<Attempt>, clock: Clock,
                     asked: seq<nat>, j: nat)
    requires Indexed(order, |hs|) && |attempts| == |hs| && Distinct(order) && j < |order|
    requires Underway(order, hs, now, attempts, clock, asked, j)
    ensures now[order[j]] == hs[order[j]]
    ensures var i := order[j];
            var now' := now[i := Append(now[i], CallOf(attempts[i], clock, j))];
            if IsOpen(hs[i], clock.check(j)) then Underway(order, hs, now, attempts, clock, asked, j + 1)
            else if GoesOn(attempts[i]) then Underway(order, hs, now', attempts, clock, asked + [i], j + 1)
            else AskedInTurn(order, hs, now', attempts, clock, asked + [i], Outcome(attempts[i]), j + 1)
  {
  }

  ghost predicate Skips(order: seq<nat>, hs: seq<History>, clock: Clock, j: nat)
    requires Indexed(order, |hs|)
  {
    j <= |order| && Eligible(order, hs, clock, j) == []
  }

  ghost predicate StopsAt(order: seq<nat>, hs: seq<History>, clock: Clock, j: nat)
    requires Indexed(order, |hs|)
  {
    Skips(order, hs, clock, j) && (j < |order| ==> !IsOpen(hs[order[j]], clock.check(j)))
  }

  lemma FirstAsked(order: seq<nat>, hs: seq<History>, attempts: seq<Attempt>, clock: Clock, j: nat)
    requires Indexed(order, |hs|) && |attempts| == |hs| && j < |order|
    requires Eligible(order, hs, clock, j) == [] && !IsOpen(hs[order[j]], clock.check(j))
    ensures var i := order[j];
            AskedOnce(order, hs, hs[i := Append(hs[i], CallOf(attempts[i], clock, j))], attempts, clock,
                      Some(i), Outcome(attempts[i]))
  {
    EligiblePrefix(order, hs, clock, j + 1, |order|);
  }

  /** All the calls the endpoints have recorded. */
  function CallsIn(hs: seq<History>): nat {
    if hs == [] then 0 else |hs[0].outcomes| + CallsIn(hs[1..])
  }

  lemma {:induction false} OneCallMore(hs: seq<History>, i: nat, c: Call)
    requires i < |hs|
    ensures CallsIn(hs[i := Append(hs[i], c)]) == CallsIn(hs) + 1
  {
    var hs' := hs[i := Append(hs[i], c)];
    if i == 0 {
      assert hs'[1..] == hs[1..];
    } else {
      assert hs'[1..] == hs[1..][i - 1 := Append(hs[1..][i - 1], c)];
      OneCallMore(hs[1..], i - 1, c);
    }
  }

  /** Whatever the endpoints do, a write adds one call to all of them together, or none. */
  lemma WriteAddsAtMostOneCall(order: seq<nat>, hs: seq<History>, hs': seq<History>, attempts: seq<Attempt>,
                               clock: Clock, asked: Option<nat>, outcome: Option<Reply>)
    requires Indexed(order, |hs|) && |attempts| == |hs| && Distinct(order)
    requires AskedOnce(order, hs, hs', attempts, clock, asked, outcome)
    ensures CallsIn(hs') == CallsIn(hs) + if asked.Some? then 1 else 0
  {
    WriteAsksFirstClosed(order, hs, hs', attempts, clock, asked, outcome);
    if asked.Some? {
      var j :| 0 <= j < |order| && hs' == hs[order[j] := Append(hs[order[j]], CallOf(attempts[order[j]], clock, j))];
      OneCallMore(hs, order[j], CallOf(attempts[order[j]], clock, j));
    }
  }

  /** A write leaves every endpoint but one alone; it reaches that one only past open circuits, and
      reaches none only if all were open. */
  lemma WriteAsksFirstClosed(order: seq<nat>, hs: seq<History>, hs': seq<History>, attempts: seq<Attempt>, clock: Clock,
                             asked: Option<nat>, outcome: Option<Reply>)
    requires Indexed(order, |hs|) && |attempts| == |hs| && Distinct(order)
    requires AskedOnce(order, hs, hs', attempts, clock, asked, outcome)
    ensures asked.None? ==> hs' == hs && forall j :: 0 <= j < |order| ==> IsOpen(hs[order[j]], clock.check(j))
    ensures asked.Some? ==> exists j ::
              && 0 <= j < |order| && order[j] == asked.value && !IsOpen(hs[order[j]], clock.check(j))
              && (forall k :: 0 <= k < j ==> IsOpen(hs[order[k]], clock.check(k)))
              && var a := attempts[order[j]];
                 hs' == hs[order[j] := Append(hs[order[j]],
                                              Call(a.reply.Result? || a.reply.NodeError?, clock.end(j), a.latencyMs))]
    ensures asked.Some? ==>
              var a := attempts[asked.value];
              && (outcome == Some(a.reply) <==> a.reply.Result? || a.reply.NodeError?)
              && (outcome == None <==> a.reply == Routing || a.reply == Failure)
  {
    EligibleExactly(order, hs, clock, |order|);
    if asked.Some? {
      FirstEligible(order, hs, clock, |order|);
    }
  }

  /** When a read goes on and when it stops, by what the endpoints did: it goes on after a routing refusal,
      and after a failed exchange whose caller still waits; it stops at a result, at an error of the
      node's own, and at a failed exchange whose caller is gone. Only the first two are answers, and only
      they are recorded as successes. */
  lemma ReadGoesOnExactly(order: seq<nat>, hs: seq<History>, hs': seq<History>, attempts: seq<Attempt>, clock: Clock,
                          asked: seq<nat>, outcome: Option<Reply>, visits: nat)
    requires Indexed(order, |hs|) && |attempts| == |hs| && asked != []
    requires AskedInTurn(order, hs, hs', attempts, clock, asked, outcome, visits)
    ensures forall k :: 0 <= k < |asked| - 1 ==>
              var a := attempts[asked[k]]; a.reply == Routing || (a.reply == Failure && !a.abandoned)
    ensures var a := attempts[asked[|asked| - 1]];
            && (a.reply == Routing || (a.reply == Failure && !a.abandoned) ==> visits == |order|)
            && (outcome == Some(a.reply) <==> a.reply.Result? || a.reply.NodeError?)
            && (outcome == None <==> a.reply == Routing || a.reply == Failure)
    ensures forall j :: 0 <= j < visits && !IsOpen(hs[order[j]], clock.check(j)) ==>
              var a := attempts[order[j]];
              hs'[order[j]] == Append(hs[order[j]],
                                      Call(a.reply.Result? || a.reply.NodeError?, clock.end(j), a.latencyMs))
  {
    forall k | 0 <= k < |asked| - 1
      ensures var a := attempts[asked[k]]; a.reply == Routing || (a.reply == Failure && !a.abandoned)
    {
      assert GoesOn(attempts[asked[..|asked| - 1][k]]);
    }
  }

  lemma {:induction false} FirstEligible(order: seq<nat>, hs: seq<History>, clock: Clock, count: nat)
    requires count <= |order| && Indexed(order, |hs|) && Eligible(order, hs, clock, count) != []
    ensures exists j ::
              && 0 <= j < count && order[j] == Eligible(order, hs, clock, count)[0]
              && !IsOpen(hs[order[j]], clock.check(j))
              && forall k :: 0 <= k < j ==> IsOpen(hs[order[k]], clock.check(k))
  {
    if Eligible(order, hs, clock, count - 1) != [] {
      FirstEligible(order, hs, clock, count - 1);
    } else {
      NoneEligible(order, hs, clock, count - 1);
      assert order[count - 1] == Eligible(order, hs, clock, count)[0];
    }
  }

  lemma {:induction false} NoneEligible(order: seq<nat>, hs: seq<History>, clock: Clock, count: nat)
    requires count <= |order| && Indexed(order, |hs|) && Eligible(order, hs, clock, count) == []
    ensures forall k :: 0 <= k < count ==> IsOpen(hs[order[k]], clock.check(k))
  {
    if count > 0 {
      NoneEligible(order, hs, clock, count - 1);
    }
  }

  /** A read fails only after every endpoint was either open when its turn came or asked in vain, unless
      its caller gave up during the last exchange. */
  lemma ReadFailsOnlyAfterAll(order: seq<nat>, hs: seq<History>, hs': seq<History>, attempts: seq<Attempt>,
                              clock: Clock, asked: seq<nat>, visits: nat)
    requires Indexed(order, |hs|) && |attempts| == |hs| && Distinct(order)
    requires AskedInTurn(order, hs, hs', attempts, clock, asked, None, visits)
    ensures Distinct(asked)
    ensures (asked != [] && GivesUp(attempts[asked[|asked| - 1]])) || forall j :: 0 <= j < |order| ==>
              IsOpen(hs[order[j]], clock.check(j)) || (order[j] in asked && !Answers(attempts[order[j]].reply))
  {
    EligibleExactly(order, hs, clock, visits);
    if !(asked != [] && GivesUp(attempts[asked[|asked| - 1]])) {
      forall j | 0 <= j < |order| && !IsOpen(hs[order[j]], clock.check(j))
        ensures order[j] in asked && !Answers(attempts[order[j]].reply)
      {
        var k :| 0 <= k < |asked| && asked[k] == order[j];
        if k < |asked| - 1 {
          assert GoesOn(attempts[asked[..|asked| - 1][k]]);
        }
      }
    }
  }

  lemma {:induction false} EligiblePrefix(order: seq<nat>, hs: seq<History>, clock: Clock, j: nat, k: nat)
    requires j <= k <= |order| && Indexed(order, |hs|)
    ensures Eligible(order, hs, clock, j) <= Eligible(order, hs, clock, k)
  {
    if j < k {
      EligiblePrefix(order, hs, clock, j, k - 1);
      var shorter, longer := Eligible(order, hs, clock, k - 1), Eligible(order, hs, clock, k);
      assert longer == shorter || longer == shorter + [order[k - 1]];
      assert shorter <= longer;
    }
  }
}
