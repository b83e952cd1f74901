/** What the broadcast guard promises, for every run of the protocol. */
module BroadcastTheorems {
  import opened Basics
  import opened GuardState
  import opened BroadcastProtocol
  import opened BroadcastSafety

  ghost predicate Run(ws: seq<World>, es: seq<Event>) {
    && |ws| == |es| + 1 && Init(ws[0])
    && forall n :: 0 <= n < |es| ==> Next(ws[n], es[n], ws[n + 1])
  }

  ghost predicate Reachable(w: World) {
    exists ws, es :: Run(ws, es) && ws[|es|] == w
  }

  lemma {:induction false} RunKeepsInv(ws: seq<World>, es: seq<Event>, n: nat)
    requires Run(ws, es) && n <= |es|
    ensures Inv(ws[n])
  {
    if n == 0 {
      InitInv(ws[0]);
    } else {
      RunKeepsInv(ws, es, n - 1);
      NextKeepsInv(ws[n - 1], es[n - 1], ws[n]);
    }
  }

  lemma ReachableInv(w: World)
    requires Reachable(w)
    ensures Inv(w)
  {
    var ws, es :| Run(ws, es) && ws[|es|] == w;
    RunKeepsInv(ws, es, |es|);
  }

  /** Over a shared store, two owners of one key are at least a TTL apart, on whatever instances;
      and no owner contacts more than one endpoint, because a write through the pool does not. */
  lemma OneSubmissionPerTtl(w: World)
    requires Reachable(w) && w.shared
    ensures forall g :: 0 <= g < |w.grants| ==> w.grants[g].attempts <= 1
    ensures forall g, h :: 0 <= g < h < |w.grants| && w.grants[g].key == w.grants[h].key ==>
              w.grants[g].at + TTL <= w.grants[h].at
  {
    ReachableInv(w);
    forall g | 0 <= g < |w.grants|
      ensures w.grants[g].attempts <= 1
    {
      assert GrantOk(w.now, w.next, w.requests, g, w.grants[g]);
    }
    forall g, h | 0 <= g < h < |w.grants| && w.grants[g].key == w.grants[h].key
      ensures w.grants[g].at + TTL <= w.grants[h].at
    {
      assert Rivals(w.shared, w.displaced, w.grants[g], w.grants[h]);
    }
  }

  /** Without a shared store the same holds within one instance, except after a submission that the node
      rejected and whose record was evicted from a full cache. */
  lemma OneSubmissionPerTtlLocally(w: World)
    requires Reachable(w) && !w.shared
    ensures forall g :: 0 <= g < |w.grants| ==> w.grants[g].attempts <= 1
    ensures forall g, h | 0 <= g < h < |w.grants|
                          && w.grants[g].key == w.grants[h].key && w.grants[g].inst == w.grants[h].inst ::
              w.grants[g].at + TTL <= w.grants[h].at || Forgotten(w.displaced, w.grants[g])
  {
    ReachableInv(w);
    forall g | 0 <= g < |w.grants|
      ensures w.grants[g].attempts <= 1
    {
      assert GrantOk(w.now, w.next, w.requests, g, w.grants[g]);
    }
    forall g, h | 0 <= g < h < |w.grants|
                  && w.grants[g].key == w.grants[h].key && w.grants[g].inst == w.grants[h].inst
                  && !Forgotten(w.displaced, w.grants[g])
      ensures w.grants[g].at + TTL <= w.grants[h].at
    {
      assert Rivals(w.shared, w.displaced, w.grants[g], w.grants[h]);
    }
  }

  /** The history of displaced records says what it should: one is added only when a request finds every
      slot of the instance taken, and then that record was evictable and is gone. */
  lemma DisplacedOnlyByOverflow(w: World, e: Event, w': World, i: nat, r: nat)
    requires Reachable(w) && Next(w, e, w') && (i, r) in w'.displaced && (i, r) !in w.displaced
    ensures e.Arrive? && e.inst == i && i < |w.locals| && |w.locals[i].records| == MAX_RECORDS
    ensures exists k :: k in w.locals[i].records && w.locals[i].records[k].node == r
                        && w.locals[i].records[k].evictable && !StaysIn(w', i, k, r)
  {
    ReachableInv(w);
    if !e.Arrive? {
      OnlyArrivalsDisplace(w, e, w');
    } else {
      ArrivalSays(w, e.inst, e.key, e.gone, e.after, e.out);
      var k := ArrivalDisplaces(w, e, w', i, r);
    }
  }

  lemma OnlyArrivalsDisplace(w: World, e: Event, w': World)
    requires Next(w, e, w') && !e.Arrive?
    ensures w'.displaced == w.displaced
  {
  }

  lemma ArrivalSays(w: World, i: nat, k: Key, gone: set<Key>, after: Slots, out: Admission)
    requires i < |w.locals|
    ensures var w' := AfterArrive(w, i, k, gone, after, out);
            w'.displaced == w.displaced + Evicted(w, i, k, gone) && w'.locals == w.locals[i := after]
  {
  }

  lemma ArrivalDisplaces(w: World, e: Event, w': World, i: nat, r: nat) returns (k: Key)
    requires AllCoherent(w.locals) && e.Arrive? && e.inst < |w.locals|
    requires BeginsAfter(w.locals[e.inst], e.gone, e.key, w.now, w.next, e.after, e.out)
    requires w'.displaced == w.displaced + Evicted(w, e.inst, e.key, e.gone) && w'.locals == w.locals[e.inst := e.after]
    requires (i, r) in w'.displaced && (i, r) !in w.displaced
    ensures e.inst == i && |w.locals[i].records| == MAX_RECORDS
    ensures k in w.locals[i].records && w.locals[i].records[k].node == r
    ensures w.locals[i].records[k].evictable && !StaysIn(w', i, k, r)
  {
    k := DisplacesEvictable(w.locals[i], e.gone, e.key, w.now, r);
  }

  lemma {:induction false} NeverFullDisplacesNothing(ws: seq<World>, es: seq<Event>, i: nat, n: nat)
    requires Run(ws, es) && n <= |es|
    requires forall m :: 0 <= m <= |es| && i < |ws[m].locals| ==> |ws[m].locals[i].records| < MAX_RECORDS
    ensures forall r :: (i, r) !in ws[n].displaced
  {
    if n > 0 {
      NeverFullDisplacesNothing(ws, es, i, n - 1);
      assert Run(ws[..n], es[..n - 1]) && ws[..n][|es[..n - 1]|] == ws[n - 1];
      forall r
        ensures (i, r) !in ws[n].displaced
      {
        if (i, r) in ws[n].displaced {
          DisplacedOnlyByOverflow(ws[n - 1], es[n - 1], ws[n], i, r);
        }
      }
    }
  }

  /** An instance whose cache never fills keeps the TTL spacing without exception. */
  lemma NeverFullKeepsSpacing(ws: seq<World>, es: seq<Event>, i: nat)
    requires Run(ws, es) && !ws[|es|].shared
    requires forall n :: 0 <= n <= |es| && i < |ws[n].locals| ==> |ws[n].locals[i].records| < MAX_RECORDS
    ensures var w := ws[|es|];
            forall g, h :: 0 <= g < h < |w.grants| && w.grants[g].key == w.grants[h].key
                           && w.grants[g].inst == i && w.grants[h].inst == i ==>
              w.grants[g].at + TTL <= w.grants[h].at
  {
    var w := ws[|es|];
    NeverFullDisplacesNothing(ws, es, i, |es|);
    OneSubmissionPerTtlLocally(w);
  }

  predicate HasLive(w: World, i: nat, k: Key)
    requires i < |w.locals|
  {
    k in w.locals[i].records && w.locals[i].records[k].expires > w.now
  }

  /** An arriving request reserves its key exactly when the instance holds no live record of it and not
      all slots are pinned. */
  lemma ArrivalReservesExactlyWhen(w: World, i: nat, k: Key, gone: set<Key>, after: Slots, out: Admission, w': World)
    requires Reachable(w) && Next(w, Arrive(i, k, gone, after, out), w')
    ensures out.Reserved? <==> !HasLive(w, i, k) && !AllPinned(w.locals[i], w.now)
  {
    ReachableInv(w);
    assert Begins(w.locals[i], k, w.now, w.next, after, out);
    FullExactlyWhenPinned(w.locals[i], k, w.now, w.next, after, out);
    BeginKeepsOnly(w.locals[i], k, w.now, w.next, after, out);
  }

  /** Without a shared store an arriving request owns its key exactly when the instance holds no live
      record of it and not all slots are pinned. */
  lemma ArrivalIsGrantedExactlyWhen(w: World, i: nat, k: Key, gone: set<Key>, after: Slots, out: Admission, w': World)
    requires Reachable(w) && !w.shared && Next(w, Arrive(i, k, gone, after, out), w')
    ensures w'.grants == w.grants + [Grant(k, i, w.next, w.now, 0, None)] || w'.grants == w.grants
    ensures |w'.grants| > |w.grants| <==> !HasLive(w, i, k) && !AllPinned(w.locals[i], w.now)
  {
    ArrivalReservesExactlyWhen(w, i, k, gone, after, out, w');
  }

  /** So a key granted less than a TTL ago is granted again exactly when that submission is forgotten,
      no later one is remembered, and there is a slot. */
  lemma GrantedAgainExactlyWhenForgotten(w: World, g: nat, gone: set<Key>, after: Slots, out: Admission, w': World)
    requires Reachable(w) && !w.shared && g < |w.grants| && w.now < w.grants[g].at + TTL
    requires Next(w, Arrive(w.grants[g].inst, w.grants[g].key, gone, after, out), w')
    ensures |w'.grants| > |w.grants| <==>
              && Forgotten(w.displaced, w.grants[g])
              && !HasLive(w, w.grants[g].inst, w.grants[g].key)
              && !AllPinned(w.locals[w.grants[g].inst], w.now)
  {
    ReachableInv(w);
    ArrivalIsGrantedExactlyWhen(w, w.grants[g].inst, w.grants[g].key, gone, after, out, w');
    assert Blocks(w.shared, w.displaced, w.store, w.locals, w.grants[g]);
  }

  /** How a rejection is forgotten: at the front of a full cache it goes as soon as another key arrives,
      however young it is, and from then on its own key finds a slot unless all are pinned. */
  lemma RejectionIsForgotten(l: Slots, k: Key, other: Key, now: Time, node: nat, l': Slots, out: Admission)
    requires Coherent(l) && |l.records| == MAX_RECORDS && l.lru != [] && l.lru[0] == k
    requires forall j :: j in l.records ==> l.records[j].expires > now
    requires other !in l.records && Begins(l, other, now, node, l', out)
    ensures k in l.records && out.Reserved? && k !in l'.records
    ensures forall node', l'', out' :: Begins(l', k, now, node', l'', out') ==>
              !out'.Replay? && (out'.Reserved? <==> !AllPinned(l', now))
  {
    FrontIsEvictable(l);
    var gone :| BeginsAfter(l, gone, other, now, node, l', out);
    PinnedIsNotSwept(l, gone, now);
    RemoveCoherent(l, k);
    BeginCoherent(l, other, now, node, l', out);
    assert Remove(l, other) == l && Evict(l) == Remove(l, k);
    forall node', l'', out' | Begins(l', k, now, node', l'', out')
      ensures !out'.Replay? && (out'.Reserved? <==> !AllPinned(l', now))
    {
      BeginKeepsOnly(l', k, now, node', l'', out');
      FullExactlyWhenPinned(l', k, now, node', l'', out');
    }
  }

  /** Every terminal record `begin` ever returned was the outcome of an owner of that key, who was
      granted less than two TTLs, one request budget and one write delay earlier. */
  lemma RepliesAreOutcomes(w: World, y: Reply)
    requires Reachable(w) && y in w.replies
    ensures ValidRecord(y.record)
    ensures !y.record.state.Pending? ==>
              exists g :: 0 <= g < |w.grants| && w.grants[g].key == y.key && w.grants[g].outcome == Some(y.record)
                          && w.grants[g].at <= y.at <= w.grants[g].at + BUDGET + w.delay + 2 * TTL - 2
  {
    ReachableInv(w);
    assert ReplyOk(w.delay, w.grants, y);
  }

  /** Two terminal replies agree unless the key was granted twice in the time they can report on. */
  lemma RepliesAgree(w: World, y: Reply, z: Reply)
    requires Reachable(w) && y in w.replies && z in w.replies && y.key == z.key && y.at <= z.at
    requires !y.record.state.Pending? && !z.record.state.Pending?
    requires forall g, h :: 0 <= g < h < |w.grants| && w.grants[g].key == y.key && w.grants[h].key == y.key ==>
               w.grants[g].at + BUDGET + w.delay + 2 * TTL - 2 < y.at || w.grants[h].at > z.at
    ensures y.record == z.record
  {
    RepliesAreOutcomes(w, y);
    RepliesAreOutcomes(w, z);
  }

  /** Over a shared store, replies that differ report two submissions of their key a TTL apart. */
  lemma RepliesDifferAcrossGrants(w: World, y: Reply, z: Reply)
    requires Reachable(w) && w.shared && y in w.replies && z in w.replies && y.key == z.key
    requires !y.record.state.Pending? && !z.record.state.Pending? && y.record != z.record
    ensures exists g, h ::
              && 0 <= g < |w.grants| && 0 <= h < |w.grants|
              && w.grants[g].key == y.key && w.grants[h].key == y.key
              && w.grants[g].outcome == Some(y.record) && w.grants[h].outcome == Some(z.record)
              && (w.grants[g].at + TTL <= w.grants[h].at || w.grants[h].at + TTL <= w.grants[g].at)
  {
    RepliesAreOutcomes(w, y);
    RepliesAreOutcomes(w, z);
    OneSubmissionPerTtl(w);
    var g :| 0 <= g < |w.grants| && w.grants[g].key == y.key && w.grants[g].outcome == Some(y.record);
    var h :| 0 <= h < |w.grants| && w.grants[h].key == z.key && w.grants[h].outcome == Some(z.record);
    assert g < h || h < g;
  }

  /** From its reservation to its last step a request finds its own slot under its key: what it
      installs, releases, completes or marks is never another request's. */
  lemma ReservationIsOwn(w: World, r: nat)
    requires Reachable(w) && r in w.requests && !w.requests[r].phase.Looking?
    ensures var q := w.requests[r];
            && q.inst < |w.locals| && q.key in w.locals[q.inst].records
            && var e := w.locals[q.inst].records[q.key];
               e.node == r && e.expires == q.start + TTL && e.expires > w.now && !e.evictable
    ensures forall s :: s in w.requests && s != r && !w.requests[s].phase.Looking? ==>
              w.requests[s].inst != w.requests[r].inst || w.requests[s].key != w.requests[r].key
  {
    ReachableInv(w);
    assert HoldsSlot(w.locals, r, w.requests[r]) && OnTime(w.now, w.next, r, w.requests[r]);
    ReservedOnce(w, r);
    forall s | s in w.requests && s != r && !w.requests[s].phase.Looking?
      ensures w.requests[s].inst != w.requests[r].inst || w.requests[s].key != w.requests[r].key
    {
      assert HoldsSlot(w.locals, s, w.requests[s]);
    }
  }

  /** How a record can leave an instance: by expiry; displaced, and then it was final and either a
      rejection or known to the store; released by the request that reserved it, which was never
      granted and never contacted a node; or with its whole instance. */
  lemma RecordsLeaveOnly(w: World, e: Event, w': World, i: nat, k: Key)
    requires Reachable(w) && i < |w.locals| && k in w.locals[i].records
    ensures Next(w, e, w') ==> StaysIn(w', i, k, w.locals[i].records[k].node) || MayLeave(w, e, i, k)
  {
    ReachableInv(w);
    if Next(w, e, w') && !StaysIn(w', i, k, w.locals[i].records[k].node) {
      match e
      case Arrive(j, key, gone, after, out) => ArriveDropsOnly(w, j, key, gone, after, out, w', i, k);
      case Release(r) => ReleaseDropsOnly(w, r, w', i, k);
      case InstallPeer(r) => InstallDropsOnly(w, r, w', i, k);
      case Crash(j) =>
      case _ => OthersKeepNodes(w, e, w', i, k);
    }
  }

  ghost predicate MayLeave(w: World, e: Event, i: nat, k: Key)
    requires i < |w.locals| && k in w.locals[i].records
  {
    var x := w.locals[i].records[k];
    || x.expires <= w.now
    || (x.evictable && Terminal(x.record)
        && (x.record.state.Rejected? || (w.shared && (k, x.record) in w.held)))
    || (&& (e == Release(x.node) || e == InstallPeer(x.node))
        && forall g :: 0 <= g < |w.grants| ==> w.grants[g].request != x.node)
    || e == Crash(i)
  }

  predicate StaysIn(w: World, i: nat, k: Key, node: nat) {
    i < |w.locals| && k in w.locals[i].records && w.locals[i].records[k].node == node
  }

  lemma ArriveDropsOnly(w: World, j: nat, key: Key, gone: set<Key>, after: Slots, out: Admission, w': World,
                        i: nat, k: Key)
    requires Inv(w) && Next(w, Arrive(j, key, gone, after, out), w') && i < |w.locals| && k in w.locals[i].records
    requires !StaysIn(w', i, k, w.locals[i].records[k].node)
    ensures MayLeave(w, Arrive(j, key, gone, after, out), i, k)
  {
    ArrivalSays(w, j, key, gone, after, out);
    DroppedOnArrival(w, j, key, gone, after, out, k);
  }

  lemma DroppedOnArrival(w: World, i: nat, key: Key, gone: set<Key>, after: Slots, out: Admission, k: Key)
    requires AllCoherent(w.locals) && Entries(w.shared, w.delay, w.grants, w.held, w.locals)
    requires i < |w.locals| && BeginsAfter(w.locals[i], gone, key, w.now, w.next, after, out)
    requires k in w.locals[i].records && !(k in after.records && after.records[k] == w.locals[i].records[k])
    ensures MayLeave(w, Arrive(i, key, gone, after, out), i, k)
  {
    assert EntryOk(w.shared, w.delay, w.grants, w.held, k, w.locals[i].records[k]);
    assert Begins(w.locals[i], key, w.now, w.next, after, out);
    BeginDropsOnly(w.locals[i], key, w.now, w.next, after, out, k);
  }

  lemma ReleaseDropsOnly(w: World, r: nat, w': World, i: nat, k: Key)
    requires Inv(w) && Next(w, Release(r), w') && i < |w.locals| && k in w.locals[i].records
    requires !StaysIn(w', i, k, w.locals[i].records[k].node)
    ensures MayLeave(w, Release(r), i, k)
  {
    NeverGranted(w, r, i, k);
  }

  lemma InstallDropsOnly(w: World, r: nat, w': World, i: nat, k: Key)
    requires Inv(w) && Next(w, InstallPeer(r), w') && i < |w.locals| && k in w.locals[i].records
    requires !StaysIn(w', i, k, w.locals[i].records[k].node)
    ensures MayLeave(w, InstallPeer(r), i, k)
  {
    NeverGranted(w, r, i, k);
  }

  lemma OthersKeepNodes(w: World, e: Event, w': World, i: nat, k: Key)
    requires Next(w, e, w') && i < |w.locals| && k in w.locals[i].records
    requires !e.Arrive? && !e.Release? && !e.InstallPeer? && !e.Crash?
    ensures StaysIn(w', i, k, w.locals[i].records[k].node)
  {
    if !e.Decide? && !e.MarkDone? {
      OthersKeepRecords(w, e, w');
    }
  }

  lemma OthersKeepRecords(w: World, e: Event, w': World)
    requires Next(w, e, w')
    requires e.Tick? || e.Claim? || e.Read? || e.Look? || e.Attempt? || e.Persist? || e.Deliver?
    ensures w'.locals == w.locals
  {
  }

  lemma NeverGranted(w: World, r: nat, i: nat, k: Key)
    requires Inv(w) && r in w.requests && (w.requests[r].phase.Releasing? || w.requests[r].phase.Installing?)
    requires i < |w.locals| && k in w.locals[i].records
    ensures w.requests[r].inst == i && w.requests[r].key == k ==> w.locals[i].records[k].node == r
    ensures forall g :: 0 <= g < |w.grants| ==> w.grants[g].request != r
  {
  }
}
