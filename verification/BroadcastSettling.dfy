/** What the guard remembers when requests are over: what each record is, and that none stays pinned
    without need. */
module BroadcastSettling {
  import opened Basics
  import opened GuardState
  import opened BroadcastProtocol
  import opened BroadcastSafety
  import opened BroadcastTheorems

  /** A record belongs to the request that reserved it. While that request is in flight it is the only
      one; over a shared store the record may be displaced as soon as the request is over, unless it
      was left unsettled; and once its grant has an outcome, that is the record. */
  ghost predicate Settled(w: World) {
    forall i, k :: 0 <= i < |w.locals| && k in w.locals[i].records ==>
      SettledEntry(w.shared, w.next, w.requests, w.unsettled, w.grants, i, k, w.locals[i].records[k])
  }

  ghost predicate SettledEntry(shared: bool, next: nat, requests: map<nat, Request>, unsettled: set<nat>,
                               grants: seq<Grant>, i: nat, k: Key, e: Entry<nat>)
  {
    && e.node < next
    && (e.node in requests ==> Reserves(requests[e.node], i, k))
    && (shared ==> e.evictable || e.node in requests || e.node in unsettled)
    && forall g :: 0 <= g < |grants| ==> Reports(grants[g], i, k, e)
  }

  predicate Reserves(q: Request, i: nat, k: Key) {
    q.inst == i && q.key == k && !q.phase.Looking?
  }

  predicate Reports(x: Grant, i: nat, k: Key, e: Entry<nat>) {
    x.request == e.node && x.inst == i && x.key == k && x.outcome.Some? ==> e.record == x.outcome.value
  }

  // ----- steps that leave the records alone -----

  /** Nothing known about outcomes is new. */
  ghost predicate NoNewOutcome(a: seq<Grant>, b: seq<Grant>) {
    |a| <= |b| && forall g :: 0 <= g < |b| ==>
      b[g].outcome.None? || (g < |a| && b[g] == a[g].(attempts := b[g].attempts))
  }

  /** The same requests, in whatever phase, and perhaps a new one. */
  ghost predicate SameRequests(next: nat, a: map<nat, Request>, b: map<nat, Request>) {
    && (forall r :: r in a ==> r in b && SamePlace(a[r], b[r]))
    && forall r :: r in b && r !in a ==> r >= next
  }

  predicate SamePlace(q: Request, q': Request) {
    q'.inst == q.inst && q'.key == q.key && (q'.phase.Looking? <==> q.phase.Looking?)
  }

  lemma RecordsAlone(w: World, w': World)
    requires Settled(w) && w'.shared == w.shared && w'.locals == w.locals && w.next <= w'.next
    requires SameRequests(w.next, w.requests, w'.requests) && w.unsettled <= w'.unsettled
    requires NoNewOutcome(w.grants, w'.grants)
    ensures Settled(w')
  {
    forall i, k | 0 <= i < |w'.locals| && k in w'.locals[i].records
      ensures SettledEntry(w'.shared, w'.next, w'.requests, w'.unsettled, w'.grants, i, k, w'.locals[i].records[k])
    {
      var e := w.locals[i].records[k];
      assert SettledEntry(w.shared, w.next, w.requests, w.unsettled, w.grants, i, k, e);
      forall g | 0 <= g < |w'.grants|
        ensures Reports(w'.grants[g], i, k, e)
      {
        assert g < |w.grants| ==> Reports(w.grants[g], i, k, e);
      }
    }
  }

  lemma RequestEnds(w: World, r: nat, w': World)
    requires Settled(w) && r in w.requests && (w.requests[r].phase.Looking? || r in w'.unsettled)
    requires w'.shared == w.shared && w'.locals == w.locals && w'.next == w.next && w'.grants == w.grants
    requires w'.requests == w.requests - {r} && w.unsettled <= w'.unsettled
    ensures Settled(w')
  {
    forall i, k | 0 <= i < |w'.locals| && k in w'.locals[i].records
      ensures SettledEntry(w'.shared, w'.next, w'.requests, w'.unsettled, w'.grants, i, k, w'.locals[i].records[k])
    {
      assert SettledEntry(w.shared, w.next, w.requests, w.unsettled, w.grants, i, k, w.locals[i].records[k]);
    }
  }

  // ----- steps of a request on its own record -----

  /** Request r changes its own record, and ends or goes on. */
  ghost predicate OnOwnRecord(w: World, r: nat, l': Slots, w': World)
    requires Holds(w, r)
  {
    var q := w.requests[r];
    && w'.shared == w.shared && w'.next == w.next && w'.unsettled == w.unsettled
    && w'.locals == w.locals[q.inst := l']
    && (w'.requests == w.requests - {r}
        || (r in w'.requests && Reserves(w'.requests[r], q.inst, q.key)
            && w'.requests == w.requests[r := w'.requests[r]]))
    && (forall k :: k in l'.records && k != q.key ==>
          k in w.locals[q.inst].records && l'.records[k] == w.locals[q.inst].records[k])
    && |w'.grants| == |w.grants|
    && forall g :: 0 <= g < |w.grants| ==>
         w'.grants[g] == w.grants[g] || (w.grants[g].request == r && w'.grants[g].request == r)
  }

  lemma OwnRecordChanges(w: World, r: nat, l': Slots, w': World)
    requires Settled(w) && Holds(w, r) && Reserves(w.requests[r], w.requests[r].inst, w.requests[r].key)
    requires OnOwnRecord(w, r, l', w')
    requires var q := w.requests[r];
             q.key in l'.records ==>
               SettledEntry(w'.shared, w'.next, w'.requests, w'.unsettled, w'.grants, q.inst, q.key, l'.records[q.key])
    ensures Settled(w')
  {
    var q := w.requests[r];
    forall i, k | 0 <= i < |w'.locals| && k in w'.locals[i].records
      ensures SettledEntry(w'.shared, w'.next, w'.requests, w'.unsettled, w'.grants, i, k, w'.locals[i].records[k])
    {
      if !(i == q.inst && k == q.key) {
        var e := w.locals[i].records[k];
        assert SettledEntry(w.shared, w.next, w.requests, w.unsettled, w.grants, i, k, e);
        assert w'.locals[i].records[k] == e && e.node != r;
        forall g | 0 <= g < |w'.grants|
          ensures Reports(w'.grants[g], i, k, e)
        {
          assert Reports(w.grants[g], i, k, e);
        }
      }
    }
  }

  lemma ReleaseSettles(w: World, r: nat, w': World)
    requires Inv(w) && Settled(w) && Next(w, Release(r), w')
    ensures Settled(w')
  {
    var q := w.requests[r];
    OwnRecordChanges(w, r, Remove(w.locals[q.inst], q.key), w');
  }

  /** The entry of request r as the invariants know it. */
  lemma OwnEntry(w: World, r: nat)
    requires Inv(w) && Settled(w) && r in w.requests && !w.requests[r].phase.Looking?
    ensures var q := w.requests[r];
            && q.inst < |w.locals| && q.key in w.locals[q.inst].records
            && var e := w.locals[q.inst].records[q.key];
               && e == Entry(Expected(q.phase), q.start + TTL, r, false)
               && SettledEntry(w.shared, w.next, w.requests, w.unsettled, w.grants, q.inst, q.key, e)
  {
    assert HoldsSlot(w.locals, r, w.requests[r]);
  }

  /** What is left of the slots after installing: of this key only a record that may be displaced. */
  lemma InstallKeepsOthers(l: Slots, k: Key, r: Record)
    requires k in l.records
    ensures var l' := Install(l, k, r);
            && (k in l'.records ==> l'.records[k] == l.records[k].(record := r, evictable := true))
            && forall j :: j in l'.records && j != k ==> j in l.records && l'.records[j] == l.records[j]
  {
  }

  lemma InstallSettles(w: World, r: nat, w': World)
    requires Inv(w) && Settled(w) && Next(w, InstallPeer(r), w')
    ensures Settled(w')
  {
    var q := w.requests[r];
    OwnEntry(w, r);
    NeverGranted(w, r, q.inst, q.key);
    var l' := Install(w.locals[q.inst], q.key, q.phase.found);
    InstallKeepsOthers(w.locals[q.inst], q.key, q.phase.found);
    assert w' == w.Keep(q.inst, l').Replied(q.key, q.phase.found).Done(r);
    OwnRecordChanges(w, r, l', w');
  }

  lemma MarkDoneSettles(w: World, r: nat, w': World)
    requires Inv(w) && Settled(w) && Next(w, MarkDone(r), w')
    ensures Settled(w')
  {
    var q := w.requests[r];
    OwnEntry(w, r);
    var l' := MarkIfSame(w.locals[q.inst], q.key, r);
    var e := w.locals[q.inst].records[q.key];
    assert l'.records[q.key] == e.(evictable := true);
    forall g | 0 <= g < |w.grants|
      ensures Reports(w.grants[g], q.inst, q.key, l'.records[q.key])
    {
      assert Reports(w.grants[g], q.inst, q.key, e);
    }
    OwnRecordChanges(w, r, l', w');
  }

  lemma DecideSettles(w: World, r: nat, w': World)
    requires Inv(w) && Settled(w) && Next(w, Decide(r), w')
    ensures Settled(w')
  {
    var q := w.requests[r];
    OwnEntry(w, r);
    if !Terminal(q.phase.outcome) {
      RequestEnds(w, r, w');
    } else {
      OutcomeSettles(w, r, w');
    }
  }

  lemma OutcomeSettles(w: World, r: nat, w': World)
    requires Inv(w) && Settled(w) && Decides(w, r) && w' == AfterDecided(w, r)
    ensures Settled(w')
  {
    var q := w.requests[r];
    var l' := Complete(w.locals[q.inst], q.key, q.phase.outcome, w.shared);
    var e' := l'.records[q.key];
    assert e'.node == r && e'.record == q.phase.outcome;
    forall g | 0 <= g < |w'.grants|
      ensures Reports(w'.grants[g], q.inst, q.key, e')
      ensures w'.grants[g] == w.grants[g] || (w.grants[g].request == r && w'.grants[g].request == r)
    {
      assert GrantOk(w.now, w.next, w.requests, g, w.grants[g]);
    }
    OwnEntry(w, r);
    OwnRecordChanges(w, r, l', w');
  }

  // ----- an arrival -----

  lemma ArriveSettles(w: World, i: nat, k: Key, gone: set<Key>, after: Slots, out: Admission, w': World)
    requires Inv(w) && Settled(w) && Next(w, Arrive(i, k, gone, after, out), w')
    ensures Settled(w')
  {
    ArrivalSays(w, i, k, gone, after, out);
    ArrivalRequests(w, i, k, gone, after, out);
    assert Begins(w.locals[i], k, w.now, w.next, after, out);
    BeginKeepsOnly(w.locals[i], k, w.now, w.next, after, out);
    forall j, x | 0 <= j < |w'.locals| && x in w'.locals[j].records
      ensures SettledEntry(w'.shared, w'.next, w'.requests, w'.unsettled, w'.grants, j, x, w'.locals[j].records[x])
    {
      if j == i && x == k && out.Reserved? {
        NewEntry(w, w', i, k, after.records[k]);
      } else {
        OldEntry(w, w', j, x, w.locals[j].records[x]);
      }
    }
  }

  /** What an arrival does to the requests and the grants. */
  lemma ArrivalRequests(w: World, i: nat, k: Key, gone: set<Key>, after: Slots, out: Admission)
    requires i < |w.locals|
    ensures var w' := AfterArrive(w, i, k, gone, after, out);
            && w'.shared == w.shared && w'.next == w.next + 1 && w'.unsettled == w.unsettled
            && (forall r :: r in w'.requests ==> r == w.next || (r in w.requests && w'.requests[r] == w.requests[r]))
            && (forall r :: r in w.requests && r != w.next ==> r in w'.requests)
            && (out.Reserved? ==> w.next in w'.requests && Reserves(w'.requests[w.next], i, k))
            && NoNewOutcome(w.grants, w'.grants)
  {
  }

  lemma NewEntry(w: World, w': World, i: nat, k: Key, e: Entry<nat>)
    requires Grants(w.now, w.next, w.requests, w.grants) && e.node == w.next && w'.next == w.next + 1
    requires w.next in w'.requests && Reserves(w'.requests[w.next], i, k) && NoNewOutcome(w.grants, w'.grants)
    ensures SettledEntry(w'.shared, w'.next, w'.requests, w'.unsettled, w'.grants, i, k, e)
  {
    forall g | 0 <= g < |w'.grants|
      ensures Reports(w'.grants[g], i, k, e)
    {
      assert g < |w.grants| ==> GrantOk(w.now, w.next, w.requests, g, w.grants[g]);
    }
  }

  lemma OldEntry(w: World, w': World, j: nat, x: Key, e: Entry<nat>)
    requires SettledEntry(w.shared, w.next, w.requests, w.unsettled, w.grants, j, x, e)
    requires w'.shared == w.shared && w'.next == w.next + 1 && w'.unsettled == w.unsettled
    requires forall r :: r in w'.requests ==> r == w.next || (r in w.requests && w'.requests[r] == w.requests[r])
    requires forall r :: r in w.requests && r != w.next ==> r in w'.requests
    requires NoNewOutcome(w.grants, w'.grants)
    ensures SettledEntry(w'.shared, w'.next, w'.requests, w'.unsettled, w'.grants, j, x, e)
  {
    forall g | 0 <= g < |w'.grants|
      ensures Reports(w'.grants[g], j, x, e)
    {
      assert g < |w.grants| ==> Reports(w.grants[g], j, x, e);
    }
  }

  // ----- all steps -----

  lemma CrashSettles(w: World, i: nat, w': World)
    requires Settled(w) && Next(w, Crash(i), w')
    ensures Settled(w')
  {
    forall j, k | 0 <= j < |w'.locals| && k in w'.locals[j].records
      ensures SettledEntry(w'.shared, w'.next, w'.requests, w'.unsettled, w'.grants, j, k, w'.locals[j].records[k])
    {
      assert j != i;
      assert SettledEntry(w.shared, w.next, w.requests, w.unsettled, w.grants, j, k, w.locals[j].records[k]);
    }
  }

  lemma PersistSettles(w: World, r: nat, failed: bool, applied: bool, w': World)
    requires Settled(w) && Next(w, Persist(r, failed, applied), w')
    ensures Settled(w')
  {
    if failed && !w.requests[r].phase.outcome.state.Rejected? {
      RequestEnds(w, r, w');
    } else {
      RecordsAlone(w, w');
    }
  }

  lemma NextSettles(w: World, e: Event, w': World)
    requires Inv(w) && Settled(w) && Next(w, e, w')
    ensures Settled(w')
  {
    match e
    case Arrive(i, k, gone, after, out) => ArriveSettles(w, i, k, gone, after, out, w');
    case Release(r) => ReleaseSettles(w, r, w');
    case InstallPeer(r) => InstallSettles(w, r, w');
    case Look(r, ok) => LookSettles(w, r, ok, w');
    case Decide(r) => DecideSettles(w, r, w');
    case Persist(r, failed, applied) => PersistSettles(w, r, failed, applied, w');
    case MarkDone(r) => MarkDoneSettles(w, r, w');
    case Crash(i) => CrashSettles(w, i, w');
    case Claim(r, failed, applied) => ClaimSettles(w, r, failed, applied, w');
    case Read(r, ok) => ReadSettles(w, r, ok, w');
    case Attempt(r, submission, outcome) =>
      assert OwnsGrant(w.shared, w.grants, r, w.requests[r]);
      AttemptSettles(w, r, Contacts(submission), outcome);
    case _ => EnvironmentSettles(w, e, w');
  }

  lemma LookSettles(w: World, r: nat, ok: bool, w': World)
    requires Settled(w) && Next(w, Look(r, ok), w')
    ensures Settled(w')
  {
    RequestEnds(w, r, w');
  }

  lemma EnvironmentSettles(w: World, e: Event, w': World)
    requires Settled(w) && Next(w, e, w') && (e.Tick? || e.Deliver?)
    ensures Settled(w')
  {
    RecordsAlone(w, w');
  }

  lemma ClaimSettles(w: World, r: nat, failed: bool, applied: bool, w': World)
    requires Settled(w) && Next(w, Claim(r, failed, applied), w')
    ensures Settled(w')
  {
    RecordsAlone(w, w');
  }

  lemma ReadSettles(w: World, r: nat, ok: bool, w': World)
    requires Settled(w) && Next(w, Read(r, ok), w')
    ensures Settled(w')
  {
    RecordsAlone(w, w');
  }

  lemma AttemptSettles(w: World, r: nat, contacts: nat, outcome: Record)
    requires Settled(w) && r in w.requests && w.requests[r].phase.Owning?
    requires OwnsGrant(w.shared, w.grants, r, w.requests[r])
    ensures Settled(AfterAttempt(w, r, contacts, outcome))
  {
    var w' := AfterAttempt(w, r, contacts, outcome);
    var g := w.requests[r].phase.grant;
    assert w'.grants == w.grants[g := w.grants[g].(attempts := w'.grants[g].attempts)];
    assert w'.requests == w.requests[r := w'.requests[r]] && SamePlace(w.requests[r], w'.requests[r]);
    RecordsAlone(w, w');
  }

  lemma InitSettled(w: World)
    requires Init(w)
    ensures Settled(w)
  {
  }

  lemma PrefixIsRun(ws: seq<World>, es: seq<Event>, n: nat)
    requires Run(ws, es) && n < |es|
    ensures Run(ws[..n + 1], es[..n]) && Next(ws[n], es[n], ws[n + 1])
  {
  }

  lemma ReachableStepSettles(w: World, e: Event, w': World)
    requires Reachable(w) && Settled(w) && Next(w, e, w')
    ensures Settled(w')
  {
    ReachableInv(w);
    NextSettles(w, e, w');
  }

  lemma {:induction false} RunSettles(ws: seq<World>, es: seq<Event>, n: nat)
    requires Run(ws, es) && n <= |es|
    ensures Settled(ws[n])
  {
    if n == 0 {
      InitSettled(ws[0]);
    } else {
      RunSettles(ws, es, n - 1);
      PrefixIsRun(ws, es, n - 1);
      assert ws[..n][|es[..n - 1]|] == ws[n - 1];
      ReachableStepSettles(ws[n - 1], es[n - 1], ws[n]);
    }
  }

  lemma ReachableSettled(w: World)
    requires Reachable(w)
    ensures Settled(w)
  {
    var ws, es :| Run(ws, es) && ws[|es|] == w;
    RunSettles(ws, es, |es|);
  }

  // ----- what follows -----

  /** The last step of an owner makes its record the newest that may be displaced. */
  lemma PersistedIsEvictable(w: World, r: nat, w': World)
    requires Reachable(w) && Next(w, MarkDone(r), w')
    ensures var q := w.requests[r];
            && q.inst < |w'.locals| && q.key in w'.locals[q.inst].records
            && w'.locals[q.inst].records[q.key] == w.locals[q.inst].records[q.key].(evictable := true)
            && w'.locals[q.inst].lru == w.locals[q.inst].lru + [q.key]
  {
    ReachableInv(w);
    ReachableSettled(w);
    OwnEntry(w, r);
  }

  /** Over a shared store nothing stays pinned once its request is over, but what was left unsettled. */
  lemma PinnedOnlyWhileInFlight(w: World, i: nat, k: Key)
    requires Reachable(w) && w.shared && i < |w.locals| && k in w.locals[i].records
    ensures var e := w.locals[i].records[k];
            e.evictable || (e.node in w.requests && Reserves(w.requests[e.node], i, k)) || e.node in w.unsettled
  {
    ReachableSettled(w);
    assert SettledEntry(w.shared, w.next, w.requests, w.unsettled, w.grants, i, k, w.locals[i].records[k]);
  }

  /** Step e leaves request r's record unsettled: its outcome was no valid final record, or it was not a
      rejection and the store reported an error on writing it. */
  predicate Unsettles(w: World, e: Event, r: nat) {
    && r in w.requests
    && match e
       case Decide(s) => s == r && w.requests[r].phase.Deciding? && !Terminal(w.requests[r].phase.outcome)
       case Persist(s, failed, _) =>
         s == r && failed && w.requests[r].phase.Persisting? && !w.requests[r].phase.outcome.state.Rejected?
       case _ => false
  }

  lemma DecideLeaves(w: World, e: Event, w': World, r: nat)
    requires Exclusive(w.locals, w.requests) && Next(w, e, w') && e.Decide?
    ensures r in w'.unsettled <==> r in w.unsettled || Unsettles(w, e, r)
  {
    var q := w.requests[e.r];
    assert HoldsSlot(w.locals, e.r, q);
    assert w'.unsettled == if Terminal(q.phase.outcome) then w.unsettled else w.unsettled + {e.r};
  }

  lemma PersistLeaves(w: World, e: Event, w': World, r: nat)
    requires Next(w, e, w') && e.Persist?
    ensures r in w'.unsettled <==> r in w.unsettled || Unsettles(w, e, r)
  {
  }

  lemma ArriveLeavesNothing(w: World, e: Event, w': World)
    requires Next(w, e, w') && e.Arrive?
    ensures w'.unsettled == w.unsettled
  {
    ArrivalRequests(w, e.inst, e.key, e.gone, e.after, e.out);
  }

  lemma OthersLeaveNothing(w: World, e: Event, w': World)
    requires Next(w, e, w') && !e.Arrive? && !e.Decide? && !e.Persist?
    ensures w'.unsettled == w.unsettled
  {
  }

  /** Nothing else does. */
  lemma UnsettledOnlyBy(w: World, e: Event, w': World, r: nat)
    requires Reachable(w) && Next(w, e, w')
    ensures r in w'.unsettled <==> r in w.unsettled || Unsettles(w, e, r)
  {
    ReachableInv(w);
    if e.Decide? {
      DecideLeaves(w, e, w', r);
    } else if e.Persist? {
      PersistLeaves(w, e, w', r);
    } else if e.Arrive? {
      ArriveLeavesNothing(w, e, w');
    } else {
      OthersLeaveNothing(w, e, w');
    }
  }

  /** So a shared instance refuses a new key only when all 4096 slots are taken by requests in flight and
      by live records that were left unsettled. */
  lemma RefusedOnlyWhenBusy(w: World, i: nat, k: Key, gone: set<Key>, after: Slots, w': World)
    requires Reachable(w) && w.shared && Next(w, Arrive(i, k, gone, after, Full), w')
    ensures |w.locals[i].records| == 4096
    ensures forall j :: j in w.locals[i].records ==>
              var e := w.locals[i].records[j];
              e.expires > w.now && (e.node in w.requests || e.node in w.unsettled)
  {
    ReachableInv(w);
    assert Begins(w.locals[i], k, w.now, w.next, after, Full);
    FullExactlyWhenPinned(w.locals[i], k, w.now, w.next, after, Full);
    forall j | j in w.locals[i].records
      ensures var e := w.locals[i].records[j];
              e.expires > w.now && (e.node in w.requests || e.node in w.unsettled)
    {
      PinnedOnlyWhileInFlight(w, i, j);
    }
  }

  /** What step e finds on record: in the instance a request arrives at, or in the store. */
  function OnRecord(w: World, e: Event): seq<Reply> {
    match e
    case Arrive(i, k, _, _, _) =>
      if i < |w.locals| && HasLive(w, i, k) then [Reply(k, w.locals[i].records[k].record, w.now)] else []
    case Look(r, ok) =>
      if ok && r in w.requests && w.requests[r].key in w.store then
        [Reply(w.requests[r].key, w.store[w.requests[r].key].record, w.now)]
      else []
    case InstallPeer(r) =>
      if r in w.requests && w.requests[r].phase.Installing? then
        [Reply(w.requests[r].key, w.requests[r].phase.found, w.now)]
      else []
    case _ => []
  }

  lemma ArrivalFinds(w: World, i: nat, k: Key, gone: set<Key>, after: Slots, out: Admission)
    requires Entries(w.shared, w.delay, w.grants, w.held, w.locals) && i < |w.locals|
    requires BeginsAfter(w.locals[i], gone, k, w.now, w.next, after, out)
    ensures out.Replay? <==> HasLive(w, i, k)
    ensures out.Replay? ==> out.record == w.locals[i].records[k].record && ValidRecord(out.record)
  {
    assert Begins(w.locals[i], k, w.now, w.next, after, out);
    BeginKeepsOnly(w.locals[i], k, w.now, w.next, after, out);
    if HasLive(w, i, k) {
      assert EntryOk(w.shared, w.delay, w.grants, w.held, k, w.locals[i].records[k]);
    }
  }

  lemma ReplayIsTold(w: World, i: nat, k: Key, gone: set<Key>, after: Slots, out: Admission)
    requires i < |w.locals| && (out.Replay? ==> ValidRecord(out.record))
    ensures AfterArrive(w, i, k, gone, after, out).replies
            == w.replies + if out.Replay? then [Reply(k, out.record, w.now)] else []
  {
  }

  lemma ArrivalIsTold(w: World, i: nat, k: Key, gone: set<Key>, after: Slots, out: Admission, w': World)
    requires Inv(w) && Next(w, Arrive(i, k, gone, after, out), w')
    ensures w'.replies == w.replies + OnRecord(w, Arrive(i, k, gone, after, out))
  {
    ArrivalFinds(w, i, k, gone, after, out);
    ReplayIsTold(w, i, k, gone, after, out);
  }

  lemma OthersAreTold(w: World, e: Event, w': World)
    requires Exclusive(w.locals, w.requests) && Next(w, e, w') && !e.Arrive?
    ensures w'.replies == w.replies + OnRecord(w, e)
  {
    if e.InstallPeer? {
      assert HoldsSlot(w.locals, e.r, w.requests[e.r]);
    }
  }

  /** Who is told what: a request that finds a live record in its instance or in the store is told that
      record, and nobody is told anything else. */
  lemma ToldExactlyWhatIsOnRecord(w: World, e: Event, w': World)
    requires Reachable(w) && Next(w, e, w')
    ensures w'.replies == w.replies + OnRecord(w, e)
  {
    ReachableInv(w);
    if e.Arrive? {
      ArrivalIsTold(w, e.inst, e.key, e.gone, e.after, e.out, w');
    } else {
      OthersAreTold(w, e, w');
    }
  }

  /** Without a shared store the outcome of a submission is what a later request for its key is told, until
      a TTL after the grant, unless it is forgotten. */
  lemma OutcomeIsReplayedLocally(w: World, g: nat, gone: set<Key>, after: Slots, out: Admission, w': World)
    requires Reachable(w) && !w.shared && g < |w.grants| && w.grants[g].outcome.Some?
    requires w.now < w.grants[g].at + TTL && !Forgotten(w.displaced, w.grants[g])
    requires Next(w, Arrive(w.grants[g].inst, w.grants[g].key, gone, after, out), w')
    ensures w'.replies == w.replies + [Reply(w.grants[g].key, w.grants[g].outcome.value, w.now)]
    ensures w'.grants == w.grants
  {
    var x := w.grants[g];
    ReachableInv(w);
    ReachableSettled(w);
    assert Blocks(w.shared, w.displaced, w.store, w.locals, x);
    var e := w.locals[x.inst].records[x.key];
    assert SettledEntry(w.shared, w.next, w.requests, w.unsettled, w.grants, x.inst, x.key, e);
    assert Reports(x, x.inst, x.key, e);
    assert EntryOk(w.shared, w.delay, w.grants, w.held, x.key, e);
    assert Begins(w.locals[x.inst], x.key, w.now, w.next, after, out);
    BeginKeepsOnly(w.locals[x.inst], x.key, w.now, w.next, after, out);
  }
}
