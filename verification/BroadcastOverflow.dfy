/** Why the local promise has its exception: a run of one instance without a shared store that fills
    its cache with rejections, displaces the first of them, and then submits that transaction again. */
module BroadcastOverflow {
  import opened Basics
  import opened GuardState
  import opened BroadcastProtocol
  import opened BroadcastTheorems
  import opened BroadcastStaleness

  const REJECTION: Record := Record(Rejected, "", Some(RpcError(CODE_UPSTREAM, "rejected")))

  /** One instance that is idle at time 0 and remembers the rejections of these keys, the first of them
      first in line. */
  ghost predicate Stacked(w: World, ks: seq<Key>) {
    && Reachable(w) && !w.shared && w.requests == map[] && w.now == 0 && |w.locals| == 1
    && w.locals[0].lru == ks
    && forall k :: k in w.locals[0].records ==>
         w.locals[0].records[k].evictable && w.locals[0].records[k].expires == TTL
  }

  /** The keys that are left when one more has been rejected. */
  function Pushed(ks: seq<Key>, k: Key): seq<Key> {
    (if |ks| >= MAX_RECORDS then ks[1..] else ks) + [k]
  }

  lemma StackedKeys(w: World, ks: seq<Key>)
    requires Stacked(w, ks)
    ensures Coherent(w.locals[0]) && |w.locals[0].records| == |ks|
    ensures forall k :: k in ks <==> k in w.locals[0].records
  {
    ReachableInv(w);
    var l := w.locals[0];
    assert Coherent(l);
    assert (set k | k in ks) == l.records.Keys;
    DistinctSize(ks);
  }

  lemma {:induction false} DistinctSize(ks: seq<Key>)
    requires NoRepeats(ks)
    ensures |set k | k in ks| == |ks|
  {
    if ks != [] {
      var rest := ks[1..];
      assert forall i :: 0 <= i < |rest| ==> rest[i] == ks[i + 1];
      DistinctSize(rest);
      assert ks[0] !in rest;
      assert (set k | k in ks) == {ks[0]} + set k | k in rest;
    }
  }

  lemma FrontGoes(ks: seq<Key>)
    requires NoRepeats(ks) && ks != []
    ensures Outside(ks, {ks[0]}) == ks[1..]
  {
    assert forall i :: 0 <= i < |ks[1..]| ==> ks[1..][i] == ks[i + 1];
    OutsideNothing(ks[1..], {ks[0]});
  }

  lemma RoomFor(w: World, ks: seq<Key>, k: Key)
    requires Stacked(w, ks) && k !in ks && |ks| <= MAX_RECORDS
    ensures var room := Evict(w.locals[0]);
            && BeginsAfter(w.locals[0], {}, k, 0, w.next, Reserve(room, k, 0, w.next), Admission.Reserved)
            && room.lru + [k] == Pushed(ks, k) && k !in room.records
            && forall j :: j in room.records ==> j in w.locals[0].records && room.records[j] == w.locals[0].records[j]
  {
    var l := w.locals[0];
    StackedKeys(w, ks);
    RemoveNothing(l);
    EvictCoherent(l);
    assert Remove(l, k) == l;
    if |ks| >= MAX_RECORDS {
      RemoveCoherent(l, ks[0]);
      FrontGoes(ks);
    }
  }

  lemma RejectsStacks(room: Slots, k: Key, node: nat)
    requires k !in room.records
    requires forall j :: j in room.records ==> room.records[j].evictable && room.records[j].expires == TTL
    ensures var l := Complete(Reserve(room, k, 0, node), k, REJECTION, false);
            && l.lru == room.lru + [k]
            && forall j :: j in l.records ==> l.records[j].evictable && l.records[j].expires == TTL
  {
  }

  /** One more key is submitted and rejected. */
  lemma Reject(w: World, ks: seq<Key>, k: Key) returns (w': World)
    requires Stacked(w, ks) && k !in ks && |ks| <= MAX_RECORDS
    ensures Stacked(w', Pushed(ks, k))
    ensures |w'.grants| == |w.grants| + 1
    ensures forall g :: 0 <= g < |w.grants| ==> w'.grants[g] == w.grants[g]
    ensures var x := w'.grants[|w.grants|]; x.key == k && x.inst == 0 && x.at == 0 && x.attempts == 1
  {
    var id, grant := w.next, |w.grants|;
    var after := Reserve(Evict(w.locals[0]), k, 0, id);
    RoomFor(w, ks, k);
    var w1 := AfterArrive(w, 0, k, {}, after, Admission.Reserved);
    Extend(w, Arrive(0, k, {}, after, Admission.Reserved), w1);
    assert w1.locals == [after] && w1.requests == map[id := Request(0, k, 0, Owning(grant))];
    assert w1.grants == w.grants + [Grant(k, 0, id, 0, 0, None)];
    w' := Finish(w1, k, id, grant);
    RejectsStacks(Evict(w.locals[0]), k, id);
  }

  /** The only request, an owner without a shared store, is rejected by the node. */
  lemma Finish(w: World, k: Key, id: nat, grant: nat) returns (w': World)
    requires Reachable(w) && !w.shared && w.now == 0 && |w.locals| == 1 && k in w.locals[0].records
    requires w.requests == map[id := Request(0, k, 0, Owning(grant))] && grant < |w.grants|
    ensures Reachable(w') && !w'.shared && w'.requests == map[] && w'.now == 0 && |w'.locals| == 1
    ensures w'.locals[0] == Complete(w.locals[0], k, REJECTION, false)
    ensures w'.grants == w.grants[grant := w.grants[grant].(attempts := w.grants[grant].attempts + 1,
                                                            outcome := Some(REJECTION))]
  {
    var w2 := AfterAttempt(w, id, 1, REJECTION);
    Extend(w, Attempt(id, TronFetch(true), REJECTION), w2);
    w' := AfterDecide(w2, id);
    Extend(w2, Decide(id), w');
    assert w'.requests == map[];
  }

  /** As many different keys as we like. */
  function NthKey(n: nat): Key {
    seq(n, _ => 'k')
  }

  function Keys(n: nat): (ks: seq<Key>)
    ensures |ks| == n && forall i :: 0 <= i < n ==> ks[i] == NthKey(i)
  {
    seq(n, i requires 0 <= i < n => NthKey(i))
  }

  lemma {:induction false} Fill(n: nat) returns (w: World)
    requires n <= MAX_RECORDS
    ensures Stacked(w, Keys(n)) && |w.grants| == n
    ensures n > 0 ==> w.grants[0].key == NthKey(0) && w.grants[0].inst == 0 && w.grants[0].at == 0
                      && w.grants[0].attempts == 1
  {
    if n == 0 {
      w := World(0, false, 0, map[], [Local(map[], [])], map[], 0, [], [], {}, {}, {}, {});
      var ws, es: seq<Event> := [w], [];
      assert Run(ws, es) && ws[|es|] == w;
    } else {
      var w1 := Fill(n - 1);
      NewKey(n - 1, n - 1);
      w := Reject(w1, Keys(n - 1), NthKey(n - 1));
      assert Pushed(Keys(n - 1), NthKey(n - 1)) == Keys(n);
    }
  }

  lemma NewKey(n: nat, j: nat)
    requires n <= j
    ensures NthKey(j) !in Keys(n)
  {
    forall i | 0 <= i < n
      ensures Keys(n)[i] != NthKey(j)
    {
      assert |NthKey(i)| != |NthKey(j)|;
    }
  }

  /** The same transaction goes to the node twice at once: without a shared store a rejection protects
      its key only until 4096 other keys have been rejected. */
  lemma SubmittedTwiceWithinTtl() returns (w: World, g: nat, h: nat)
    ensures Reachable(w) && !w.shared && g < h < |w.grants|
    ensures w.grants[g].key == w.grants[h].key && w.grants[g].inst == w.grants[h].inst
    ensures w.grants[h].at < w.grants[g].at + TTL
    ensures w.grants[g].attempts == 1 && w.grants[h].attempts == 1
  {
    var full := Keys(MAX_RECORDS);
    w := Fill(MAX_RECORDS);
    NewKey(MAX_RECORDS, MAX_RECORDS);
    w := Reject(w, full, NthKey(MAX_RECORDS));
    var rest := Pushed(full, NthKey(MAX_RECORDS));
    forall i | 0 <= i < |rest|
      ensures rest[i] != NthKey(0)
    {
      assert rest[i] == NthKey(i + 1);
      assert |NthKey(i + 1)| != |NthKey(0)|;
    }
    g, h := 0, |w.grants|;
    w := Reject(w, rest, NthKey(0));
  }
}
