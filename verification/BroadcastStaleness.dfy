/** Why replies are only promised to agree until the next grant: a run in which two instances answer
    the same key, at the same instant, with the outcomes of two different submissions. */
module BroadcastStaleness {
  import opened Basics
  import opened GuardState
  import opened BroadcastProtocol
  import opened BroadcastTheorems

  lemma Extend(w: World, e: Event, w': World)
    requires Reachable(w) && Next(w, e, w')
    ensures Reachable(w')
  {
    var ws, es :| Run(ws, es) && ws[|es|] == w;
    var ws', es' := ws + [w'], es + [e];
    forall n | 0 <= n < |es'|
      ensures Next(ws'[n], es'[n], ws'[n + 1])
    {
      assert n < |es| ==> Next(ws[n], es[n], ws[n + 1]);
    }
    assert Run(ws', es') && ws'[|es'|] == w';
  }

  /** Nothing is in flight, and instance i remembers at most k, and that no longer. */
  ghost predicate Idle(w: World, i: nat, k: Key) {
    && Reachable(w) && w.shared && w.requests == map[] && i < |w.locals|
    && w.locals[i].records.Keys <= {k}
    && (k in w.locals[i].records ==> w.locals[i].records[k].expires <= w.now)
  }

  /** Instance i remembers exactly the record r of k, until the given time. */
  ghost predicate Remembers(w: World, i: nat, k: Key, r: Record, until: Time) {
    && i < |w.locals| && w.locals[i].records.Keys == {k}
    && w.locals[i].records[k].record == r && w.locals[i].records[k].expires == until
  }

  function Arrived(w: World, i: nat, k: Key): World
    requires i < |w.locals|
  {
    w.Keep(i, Reserve(Local(map[], []), k, w.now, w.next))
     .(requests := w.requests[w.next := Request(i, k, w.now, Claiming)], next := w.next + 1)
  }

  lemma {:induction false} OutsideEverything(s: seq<Key>, gone: set<Key>)
    requires forall k :: k in s ==> k in gone
    ensures Outside(s, gone) == []
  {
    if s != [] {
      OutsideEverything(s[1..], gone);
    }
  }

  lemma IdleIsSwept(l: Slots, k: Key, now: Time)
    requires Coherent(l) && l.records.Keys <= {k} && (k in l.records ==> l.records[k].expires <= now)
    ensures Swept(l, l.records.Keys, now) && RemoveAll(l, l.records.Keys) == Local(map[], [])
  {
    var gone := l.records.Keys;
    assert gone == {} || gone == {k};
    OutsideEverything(l.lru, gone);
    assert l.records - gone == map[];
  }

  lemma EmptyAdmits(k: Key, now: Time)
    ensures Admit<nat>(Local(map[], []), k, now) == (Local(map[], []), Reserved)
    ensures Displaces<nat>(Local(map[], []), k, now) == {}
  {
  }

  lemma ArriveIdle(w: World, i: nat, k: Key)
    requires Idle(w, i, k)
    ensures Reachable(Arrived(w, i, k))
  {
    var l := w.locals[i];
    var gone := l.records.Keys;
    var after := Reserve(Local(map[], []), k, w.now, w.next);
    ReachableInv(w);
    IdleIsSwept(l, k, w.now);
    EmptyAdmits(k, w.now);
    assert BeginsAfter(l, gone, k, w.now, w.next, after, Reserved);
    Extend(w, Arrive(i, k, gone, after, Reserved), Arrived(w, i, k));
  }

  /** An idle instance claims a free key, submits, and persists the outcome r. */
  lemma Submit(w: World, i: nat, k: Key, r: Record) returns (w': World)
    requires Idle(w, i, k) && !w.Live(k) && Terminal(r)
    ensures Reachable(w') && w'.shared && w'.requests == map[] && w'.now == w.now && |w'.locals| == |w.locals|
    ensures forall j :: 0 <= j < |w.locals| && j != i ==> w'.locals[j] == w.locals[j]
    ensures Remembers(w', i, k, r, w.now + TTL)
    ensures k in w'.store && w'.store[k] == Cell(r, w.now + TTL) && w'.replies == w.replies
  {
    ArriveIdle(w, i, k);
    var w1, id := Arrived(w, i, k), w.next;
    var w2 := AfterClaim(w1, id, false, false);
    Extend(w1, Claim(id, false, false), w2);
    w' := Finish(w2, i, k, id, r);
    assert w2.locals == w1.locals;
  }

  /** The only request, an owner that just claimed, submits and persists the outcome r. */
  lemma Finish(w: World, i: nat, k: Key, id: nat, r: Record) returns (w': World)
    requires Reachable(w) && w.shared && i < |w.locals| && Terminal(r) && |w.grants| > 0
    requires w.requests == map[id := Request(i, k, w.now, Owning(|w.grants| - 1))]
    requires w.locals[i] == Local(map[k := Entry(PENDING, w.now + TTL, id, false)], [])
    ensures Reachable(w') && w'.shared && w'.requests == map[] && w'.now == w.now && |w'.locals| == |w.locals|
    ensures forall j :: 0 <= j < |w.locals| && j != i ==> w'.locals[j] == w.locals[j]
    ensures Remembers(w', i, k, r, w.now + TTL)
    ensures k in w'.store && w'.store[k] == Cell(r, w.now + TTL) && w'.replies == w.replies
  {
    w' := OwnerDecides(w, i, k, id, r);
    w' := Publish(w', i, k, id, |w.grants| - 1, r);
  }

  lemma OwnerDecides(w: World, i: nat, k: Key, id: nat, r: Record) returns (w': World)
    requires Reachable(w) && w.shared && i < |w.locals| && Terminal(r) && |w.grants| > 0
    requires w.requests == map[id := Request(i, k, w.now, Owning(|w.grants| - 1))]
    requires w.locals[i] == Local(map[k := Entry(PENDING, w.now + TTL, id, false)], [])
    ensures Reachable(w') && w'.shared && w'.now == w.now && w'.delay == w.delay && |w'.locals| == |w.locals|
    ensures w'.requests == map[id := Request(i, k, w.now, Persisting(|w.grants| - 1, r))]
    ensures forall j :: 0 <= j < |w.locals| && j != i ==> w'.locals[j] == w.locals[j]
    ensures Remembers(w', i, k, r, w.now + TTL) && w'.replies == w.replies
    ensures |w'.grants| == |w.grants|
    ensures var g := |w.grants| - 1;
            w'.grants[g] == w.grants[g].(attempts := w'.grants[g].attempts, outcome := Some(r))
  {
    var w1 := AfterAttempt(w, id, 1, r);
    Extend(w, Attempt(id, TronFetch(true), r), w1);
    w' := AfterDecide(w1, id);
    Extend(w1, Decide(id), w');
  }

  lemma Publish(w: World, i: nat, k: Key, id: nat, grant: nat, r: Record) returns (w': World)
    requires Reachable(w) && w.shared && i < |w.locals|
    requires w.requests == map[id := Request(i, k, w.now, Persisting(grant, r))]
    requires Remembers(w, i, k, r, w.now + TTL)
    ensures Reachable(w') && w'.shared && w'.requests == map[] && w'.now == w.now && |w'.locals| == |w.locals|
    ensures forall j :: 0 <= j < |w.locals| && j != i ==> w'.locals[j] == w.locals[j]
    ensures Remembers(w', i, k, r, w.now + TTL)
    ensures k in w'.store && w'.store[k] == Cell(r, w.now + TTL) && w'.replies == w.replies
  {
    var w5 := AfterPersist(w, id, false, true);
    Extend(w, Persist(id, false, true), w5);
    w' := w5.Keep(i, MarkIfSame(w5.locals[i], k, id)).Done(id);
    Extend(w5, MarkDone(id), w');
    assert w'.requests == map[];
  }

  /** An idle instance finds the key taken, and keeps the outcome it reads. */
  lemma CopyPeer(w: World, i: nat, k: Key) returns (w': World)
    requires Idle(w, i, k) && w.Live(k) && Terminal(w.store[k].record)
    ensures Reachable(w') && w'.shared && w'.requests == map[] && w'.now == w.now && |w'.locals| == |w.locals|
    ensures forall j :: 0 <= j < |w.locals| && j != i ==> w'.locals[j] == w.locals[j]
    ensures Remembers(w', i, k, w.store[k].record, w.now + TTL) && w'.store == w.store
    ensures w'.grants == w.grants && w'.delay == w.delay
  {
    ArriveIdle(w, i, k);
    var w1, id := Arrived(w, i, k), w.next;
    var w2 := AfterClaim(w1, id, false, false);
    Extend(w1, Claim(id, false, false), w2);
    var w3 := w2.At(id, Installing(w2.store[k].record));
    Extend(w2, Read(id, true), w3);
    w' := AfterInstall(w3, id);
    Extend(w3, InstallPeer(id), w');
    assert w'.requests == map[];
  }

  /** An instance that remembers a live record answers with it. */
  lemma ReplayFrom(w: World, i: nat, k: Key, r: Record, until: Time) returns (w': World)
    requires Reachable(w) && Remembers(w, i, k, r, until) && until > w.now && ValidRecord(r)
    ensures Reachable(w') && w'.shared == w.shared && w'.now == w.now && |w'.locals| == |w.locals|
    ensures forall j :: 0 <= j < |w.locals| && j != i ==> w'.locals[j] == w.locals[j]
    ensures w'.replies == w.replies + [Reply(k, r, w.now)]
    ensures w'.grants == w.grants && w'.delay == w.delay
  {
    var l := w.locals[i];
    var after := Touch(l, k);
    RemoveNothing(l);
    assert BeginsAfter(l, {}, k, w.now, w.next, after, Replay(r));
    w' := AfterArrive(w, i, k, {}, after, Replay(r));
    Extend(w, Arrive(i, k, {}, after, Replay(r)), w');
  }

  lemma Wait(w: World, elapsed: Time) returns (w': World)
    requires Reachable(w) && w.requests == map[] && elapsed > 0
    ensures Reachable(w') && w' == w.(now := w.now + elapsed)
  {
    w' := w.(now := w.now + elapsed);
    Extend(w, Tick(elapsed), w');
  }

  lemma TwoIdle(delay: nat) returns (w: World)
    ensures Reachable(w) && w.shared && w.delay == delay && w.grants == [] && w.requests == map[]
    ensures |w.locals| == 2 && w.store == map[] && w.replies == []
    ensures w.now == 0 && w.locals[0].records == map[] && w.locals[1].records == map[]
  {
    w := World(0, true, delay, map[], [Local(map[], []), Local(map[], [])], map[], 0, [], [], {}, {}, {}, {});
    var ws, es: seq<Event> := [w], [];
    assert Run(ws, es) && ws[|es|] == w;
  }

  /** Instance 1 copies the first outcome a moment before the shared record expires; the key is then
      granted again to instance 0, and for the rest of a TTL the two instances disagree. */
  lemma StaleReplyExists(k: Key, a: Record, b: Record) returns (w: World, y: Reply, z: Reply)
    requires Terminal(a) && Terminal(b)
    ensures Reachable(w) && w.shared && y in w.replies && z in w.replies
    ensures y == Reply(k, b, w.now) && z == Reply(k, a, w.now)
  {
    w := TwoIdle(0);
    w := Submit(w, 0, k, a);
    w := Wait(w, TTL - 1);
    w := CopyPeer(w, 1, k);
    w := Wait(w, 1);
    w := Submit(w, 0, k, b);
    y, z := Reply(k, b, w.now), Reply(k, a, w.now);
    w := ReplayFrom(w, 0, k, b, 2 * TTL);
    w := ReplayFrom(w, 1, k, a, 2 * TTL - 1);
  }

  // ----- how old a reply can be -----

  /** An idle instance claims a free key and submits; the outcome r is known at the last moment and its
      write fails, so far. */
  lemma SubmitLate(w: World, i: nat, k: Key, r: Record) returns (w': World)
    requires Idle(w, i, k) && !w.Live(k) && Terminal(r) && !r.state.Rejected? && w.grants == []
    ensures Reachable(w') && w'.shared && w'.requests == map[] && w'.now == w.now + BUDGET && w'.delay == w.delay
    ensures |w'.locals| == |w.locals| && forall j :: 0 <= j < |w.locals| && j != i ==> w'.locals[j] == w.locals[j]
    ensures LateSet(k, r, w'.now + w'.delay) in w'.late
    ensures |w'.grants| == 1 && w'.grants[0].key == k && w'.grants[0].at == w.now && w'.grants[0].outcome == Some(r)
  {
    ArriveIdle(w, i, k);
    var w1, id := Arrived(w, i, k), w.next;
    var w2 := AfterClaim(w1, id, false, false);
    Extend(w1, Claim(id, false, false), w2);
    w' := OutcomeLate(w2, i, k, id, r);
    assert w2.locals == w1.locals;
  }

  lemma OutcomeLate(w: World, i: nat, k: Key, id: nat, r: Record) returns (w': World)
    requires Reachable(w) && w.shared && i < |w.locals| && Terminal(r) && !r.state.Rejected?
    requires |w.grants| == 1 && w.grants[0].key == k && w.grants[0].at == w.now
    requires w.requests == map[id := Request(i, k, w.now, Owning(0))]
    requires w.locals[i] == Local(map[k := Entry(PENDING, w.now + TTL, id, false)], [])
    ensures Reachable(w') && w'.shared && w'.requests == map[] && w'.now == w.now + BUDGET && w'.delay == w.delay
    ensures |w'.locals| == |w.locals| && forall j :: 0 <= j < |w.locals| && j != i ==> w'.locals[j] == w.locals[j]
    ensures LateSet(k, r, w'.now + w'.delay) in w'.late
    ensures |w'.grants| == 1 && w'.grants[0].key == k && w'.grants[0].at == w.now && w'.grants[0].outcome == Some(r)
  {
    var w1 := OwnerDecides(w, i, k, id, r);
    var w2 := w1.(now := w1.now + BUDGET);
    Extend(w1, Tick(BUDGET), w2);
    w' := AfterPersist(w2, id, true, false);
    Extend(w2, Persist(id, true, false), w');
    assert w'.requests == map[];
  }

  /** The bound on the age of a reply is reached, for any delay: the outcome is known and written as late
      as it may be, copied just before the shared record expires, and replayed just before the copy
      does. */
  lemma OldestReplyExists(k: Key, r: Record, delay: nat) returns (w: World, y: Reply)
    requires Terminal(r) && !r.state.Rejected?
    ensures Reachable(w) && w.shared && w.delay == delay && y in w.replies && y.key == k && y.record == r
    ensures |w.grants| == 1 && w.grants[0].key == k && w.grants[0].outcome == Some(r)
    ensures y.at == w.grants[0].at + BUDGET + delay + 2 * TTL - 2
  {
    w := TwoIdle(delay);
    w := SubmitLate(w, 0, k, r);
    var x := LateSet(k, r, w.now + delay);
    if delay > 0 {
      w := Wait(w, delay);
    }
    var w1 := AfterDeliver(w, x);
    Extend(w, Deliver(x), w1);
    w := Wait(w1, TTL - 1);
    w := CopyPeer(w, 1, k);
    w := Wait(w, TTL - 1);
    y := Reply(k, r, w.now);
    w := ReplayFrom(w, 1, k, r, w.now + 1);
  }
}
