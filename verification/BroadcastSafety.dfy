/** Safety of the broadcast claim protocol over every run. */
module BroadcastSafety {
  import opened Basics
  import opened GuardState
  import opened BroadcastProtocol

  // ----- small changes that keep the invariant -----

  lemma DoneInv(w: World, r: nat)
    requires Inv(w)
    ensures Inv(w.Done(r))
  {
  }

  lemma UnsettledInv(w: World, r: nat)
    requires Inv(w)
    ensures Inv(w.LeftUnsettled(r).Done(r))
  {
    DoneInv(w, r);
  }

  lemma RepliedInv(w: World, k: Key, record: Record)
    requires Inv(w) && ValidRecord(record)
    requires Terminal(record) ==> Answers(w.delay, w.grants, Reply(k, record, w.now))
    ensures Inv(w.Replied(k, record))
  {
  }

  lemma StoredInv(w: World, k: Key, record: Record)
    requires Inv(w) && w.shared && ValidRecord(record)
    requires Terminal(record) ==> Sourced(w.grants, k, record, w.now + TTL, BUDGET + w.delay + TTL)
    ensures Inv(w.Stored(k, record))
  {
  }

  lemma LateInv(w: World, x: Late)
    requires Inv(w) && LateOk(w.shared, w.delay, w.grants, x)
    ensures Inv(w.LeftUnderWay(x))
  {
  }

  /** A request that owns nothing moves on without owning anything. */
  lemma AtInv(w: World, r: nat, p: Phase)
    requires Inv(w) && r in w.requests && (w.requests[r].phase.Claiming? || w.requests[r].phase.Reading?)
    requires p.Reading? || p.Releasing? || p.Installing?
    requires p.Installing? ==>
               var q := w.requests[r];
               && ValidRecord(p.found) && (q.key, p.found) in w.held
               && (Terminal(p.found) ==>
                     Sourced(w.grants, q.key, p.found, q.start + TTL, BUDGET + w.delay + 2 * TTL - 1))
    ensures Inv(w.At(r, p))
  {
  }

  ghost predicate IsReserved(w: World, i: nat, k: Key) {
    exists r :: r in w.requests && !w.requests[r].phase.Looking? && w.requests[r].inst == i && w.requests[r].key == k
  }

  predicate WasDisplaced(w: World, i: nat, k: Key)
    requires i < |w.locals| && k in w.locals[i].records
  {
    w.locals[i].records[k].evictable && (i, w.locals[i].records[k].node) in w.displaced
  }

  /** Records may go that nobody has reserved, if the store arbitrates or they block nothing. */
  lemma ShrinkInv(w: World, i: nat, l: Slots)
    requires Inv(w) && i < |w.locals| && Coherent(l)
    requires forall k :: k in l.records ==> k in w.locals[i].records && l.records[k] == w.locals[i].records[k]
    requires forall k :: k in w.locals[i].records && k !in l.records ==>
               && !IsReserved(w, i, k)
               && (w.shared || w.locals[i].records[k].expires <= w.now || WasDisplaced(w, i, k))
    ensures Inv(w.Keep(i, l))
  {
    ShrinkExclusive(w, i, l);
    ShrinkBlocks(w, i, l);
  }

  lemma ShrinkExclusive(w: World, i: nat, l: Slots)
    requires Inv(w) && i < |w.locals|
    requires forall k :: k in l.records ==> k in w.locals[i].records && l.records[k] == w.locals[i].records[k]
    requires forall k :: k in w.locals[i].records && k !in l.records ==> !IsReserved(w, i, k)
    ensures Exclusive(w.Keep(i, l).locals, w.requests)
  {
    forall r | r in w.requests
      ensures HoldsSlot(w.Keep(i, l).locals, r, w.requests[r])
    {
      assert HoldsSlot(w.locals, r, w.requests[r]);
      if !w.requests[r].phase.Looking? && w.requests[r].inst == i {
        assert IsReserved(w, i, w.requests[r].key);
      }
    }
  }

  lemma ShrinkBlocks(w: World, i: nat, l: Slots)
    requires Inv(w) && i < |w.locals|
    requires forall k :: k in l.records ==> k in w.locals[i].records && l.records[k] == w.locals[i].records[k]
    requires forall k :: k in w.locals[i].records && k !in l.records ==>
               w.shared || w.locals[i].records[k].expires <= w.now || WasDisplaced(w, i, k)
    ensures Blocking(w.now, w.shared, w.displaced, w.store, w.Keep(i, l).locals, w.grants)
  {
    forall g | 0 <= g < |w.grants| && w.now < w.grants[g].at + TTL
      ensures Blocks(w.shared, w.displaced, w.store, w.Keep(i, l).locals, w.grants[g])
    {
      assert Blocks(w.shared, w.displaced, w.store, w.locals, w.grants[g]);
    }
  }

  /** A record nobody has reserved may become final and displaceable. */
  lemma RewriteInv(w: World, i: nat, k: Key, l: Slots)
    requires Inv(w) && w.shared && i < |w.locals| && Coherent(l) && k in w.locals[i].records && !IsReserved(w, i, k)
    requires k in l.records && l.records == w.locals[i].records[k := l.records[k]]
    requires Displaceable(w.shared, w.held, k, l.records[k].record)
    requires Sourced(w.grants, k, l.records[k].record, l.records[k].expires, BUDGET + w.delay + 2 * TTL - 1)
    ensures Inv(w.Keep(i, l))
  {
    var w' := w.Keep(i, l);
    forall r | r in w.requests && !w.requests[r].phase.Looking? && w.requests[r].inst == i
      ensures w.requests[r].key != k
    {
      assert w.requests[r].key == k ==> IsReserved(w, i, k);
    }
  }

  lemma LookingInv(w: World, i: nat, k: Key)
    requires Inv(w) && w.shared && i < |w.locals|
    ensures Inv(w.(requests := w.requests[w.next := Request(i, k, w.now, Looking)], next := w.next + 1))
  {
  }

  function Fresh(w: World, i: nat, k: Key, p: Phase): World
    requires i < |w.locals|
  {
    w.Keep(i, Reserve(w.locals[i], k, w.now, w.next))
     .(requests := w.requests[w.next := Request(i, k, w.now, p)], next := w.next + 1)
  }

  /** A free slot is taken by a request that just arrived. */
  lemma FreshSlot(w: World, i: nat, k: Key, p: Phase, grants: seq<Grant>)
    requires Inv(w) && i < |w.locals| && k !in w.locals[i].records && Expected(p) == PENDING
    requires Coherent(Reserve(w.locals[i], k, w.now, w.next))
    requires Entries(w.shared, w.delay, grants, w.held, w.locals)
    ensures var w' := Fresh(w, i, k, p);
            && AllCoherent(w'.locals)
            && Timely(w'.now, w'.next, w'.requests) && Exclusive(w'.locals, w'.requests)
            && Entries(w.shared, w.delay, grants, w.held, w'.locals)
            && Blocking(w.now, w.shared, w.displaced, w.store, w'.locals, w.grants)
  {
    FreshExclusive(w, i, k, p);
    FreshBlocks(w, i, k, p);
  }

  lemma FreshExclusive(w: World, i: nat, k: Key, p: Phase)
    requires Inv(w) && i < |w.locals| && k !in w.locals[i].records && Expected(p) == PENDING
    ensures var w' := Fresh(w, i, k, p); Exclusive(w'.locals, w'.requests)
  {
    var w' := Fresh(w, i, k, p);
    forall r | r in w'.requests
      ensures HoldsSlot(w'.locals, r, w'.requests[r])
    {
      if r != w.next {
        assert HoldsSlot(w.locals, r, w.requests[r]);
      }
    }
  }

  lemma FreshBlocks(w: World, i: nat, k: Key, p: Phase)
    requires Inv(w) && i < |w.locals| && k !in w.locals[i].records
    ensures Blocking(w.now, w.shared, w.displaced, w.store, Fresh(w, i, k, p).locals, w.grants)
  {
  }

  lemma ReserveInv(w: World, i: nat, k: Key)
    requires Inv(w) && w.shared && i < |w.locals| && k !in w.locals[i].records
    requires Coherent(Reserve(w.locals[i], k, w.now, w.next))
    ensures Inv(Fresh(w, i, k, Claiming))
  {
    FreshSlot(w, i, k, Claiming, w.grants);
  }

  // ----- changes to the grants -----

  /** Later grants: more of them, further used, and with no outcome ever taken back. */
  ghost predicate Grows(a: seq<Grant>, b: seq<Grant>) {
    && |a| <= |b|
    && forall g :: 0 <= g < |a| ==>
         && b[g].key == a[g].key && b[g].inst == a[g].inst && b[g].request == a[g].request && b[g].at == a[g].at
         && (a[g].outcome.Some? ==> b[g].outcome == a[g].outcome)
  }

  /** What the store, the instances, the requests and the replies say stays vouched for. */
  lemma VouchedGrows(w: World, b: seq<Grant>)
    requires Inv(w) && Grows(w.grants, b)
    ensures Cells(w.delay, b, w.held, w.store) && Entries(w.shared, w.delay, b, w.held, w.locals)
    ensures Found(w.shared, w.delay, b, w.held, w.requests) && Replies(w.delay, b, w.replies)
    ensures Lates(w.shared, w.delay, b, w.late)
  {
  }

  lemma GrantAppended(w: World, grants: seq<Grant>)
    requires Inv(w) && |grants| == |w.grants| + 1 && grants[..|w.grants|] == w.grants
    requires forall g :: 0 <= g < |w.grants| && Rivals(w.shared, w.displaced, w.grants[g], grants[|w.grants|]) ==>
               w.grants[g].at + TTL <= grants[|w.grants|].at
    ensures Spaced(w.shared, w.displaced, grants)
    ensures Owners(w.shared, grants, w.requests)
  {
    assert forall g :: 0 <= g < |w.grants| ==> grants[g] == w.grants[g];
    forall g, h | 0 <= g < h < |grants| && Rivals(w.shared, w.displaced, grants[g], grants[h])
      ensures grants[g].at + TTL <= grants[h].at
    {
      assert Rivals(w.shared, w.displaced, w.grants[g], grants[h]);
    }
    forall r | r in w.requests
      ensures OwnsGrant(w.shared, grants, r, w.requests[r])
    {
      assert OwnsGrant(w.shared, w.grants, r, w.requests[r]);
    }
  }

  lemma ReserveGrantInv(w: World, i: nat, k: Key)
    requires Inv(w) && !w.shared && i < |w.locals| && k !in w.locals[i].records
    requires Coherent(Reserve(w.locals[i], k, w.now, w.next))
    requires var x := Grant(k, i, w.next, w.now, 0, None);
             forall g :: 0 <= g < |w.grants| && Rivals(false, w.displaced, w.grants[g], x) ==>
               w.grants[g].at + TTL <= w.now
    ensures Inv(Fresh(w, i, k, Owning(|w.grants|)).Granted(w.next, k, i))
  {
    var grants := w.Granted(w.next, k, i).grants;
    VouchedGrows(w, grants);
    FreshSlot(w, i, k, Owning(|w.grants|), grants);
    GrantAppended(w, grants);
    FreshOwner(w, i, k, grants);
  }

  lemma FreshOwner(w: World, i: nat, k: Key, grants: seq<Grant>)
    requires Inv(w) && !w.shared && i < |w.locals| && grants == w.grants + [Grant(k, i, w.next, w.now, 0, None)]
    requires Owners(w.shared, grants, w.requests)
    ensures var w' := Fresh(w, i, k, Owning(|w.grants|));
            Owners(w.shared, grants, w'.requests) && Grants(w'.now, w'.next, w'.requests, grants)
  {
    FreshGrant(w, i, k, grants);
  }

  lemma FreshGrant(w: World, i: nat, k: Key, grants: seq<Grant>)
    requires Timely(w.now, w.next, w.requests) && Grants(w.now, w.next, w.requests, w.grants)
    requires i < |w.locals| && grants == w.grants + [Grant(k, i, w.next, w.now, 0, None)]
    ensures var w' := Fresh(w, i, k, Owning(|w.grants|)); Grants(w'.now, w'.next, w'.requests, grants)
  {
    var w' := Fresh(w, i, k, Owning(|w.grants|));
    forall g | 0 <= g < |grants|
      ensures GrantOk(w'.now, w'.next, w'.requests, g, grants[g])
    {
      if g < |w.grants| {
        assert GrantOk(w.now, w.next, w.requests, g, w.grants[g]);
      }
    }
  }

  lemma GrantInv(w: World, r: nat)
    requires Inv(w) && w.shared && r in w.requests && w.requests[r].phase.Claiming?
    requires var k := w.requests[r].key; k in w.store && w.store[k].expires >= w.now + TTL
    requires forall g :: 0 <= g < |w.grants| && w.grants[g].key == w.requests[r].key ==> w.grants[g].at + TTL <= w.now
    ensures var q := w.requests[r]; Inv(w.At(r, Owning(|w.grants|)).Granted(r, q.key, q.inst))
  {
    var q := w.requests[r];
    var w' := w.At(r, Owning(|w.grants|)).Granted(r, q.key, q.inst);
    VouchedGrows(w, w'.grants);
    GrantAppended(w, w'.grants);
    GrantOwned(w, r, w'.grants);
    GrantStands(w, r, w'.grants);
  }

  lemma GrantOwned(w: World, r: nat, grants: seq<Grant>)
    requires r in w.requests && w.requests[r].phase.Claiming? && w.shared
    requires Timely(w.now, w.next, w.requests) && Grants(w.now, w.next, w.requests, w.grants)
    requires grants == w.grants + [Grant(w.requests[r].key, w.requests[r].inst, r, w.now, 0, None)]
    requires Owners(w.shared, grants, w.requests)
    ensures var m := w.At(r, Owning(|w.grants|)).requests;
            Owners(w.shared, grants, m) && Grants(w.now, w.next, m, grants)
  {
    var m := w.At(r, Owning(|w.grants|)).requests;
    assert OnTime(w.now, w.next, r, w.requests[r]);
    forall g | 0 <= g < |grants|
      ensures GrantOk(w.now, w.next, m, g, grants[g])
    {
      if g < |w.grants| {
        assert GrantOk(w.now, w.next, w.requests, g, w.grants[g]);
      }
    }
    forall s | s in m
      ensures OwnsGrant(w.shared, grants, s, m[s])
    {
      if s != r {
        assert OwnsGrant(w.shared, grants, s, w.requests[s]);
      }
    }
  }

  lemma GrantStands(w: World, r: nat, grants: seq<Grant>)
    requires w.shared && r in w.requests && w.requests[r].phase.Claiming?
    requires var k := w.requests[r].key; k in w.store && w.store[k].expires >= w.now + TTL
    requires Timely(w.now, w.next, w.requests) && Exclusive(w.locals, w.requests)
    requires Found(w.shared, w.delay, grants, w.held, w.requests)
    requires Blocking(w.now, w.shared, w.displaced, w.store, w.locals, w.grants)
    requires grants == w.grants + [Grant(w.requests[r].key, w.requests[r].inst, r, w.now, 0, None)]
    ensures var m := w.At(r, Owning(|w.grants|)).requests;
            && Timely(w.now, w.next, m) && Exclusive(w.locals, m)
            && Found(w.shared, w.delay, grants, w.held, m)
            && Blocking(w.now, w.shared, w.displaced, w.store, w.locals, grants)
  {
    forall g | 0 <= g < |grants| && w.now < grants[g].at + TTL
      ensures Blocks(w.shared, w.displaced, w.store, w.locals, grants[g])
    {
      if g < |w.grants| {
        assert Blocks(w.shared, w.displaced, w.store, w.locals, w.grants[g]);
      }
    }
  }

  // ----- each step keeps the invariant -----

  lemma TickInv(w: World, elapsed: Time)
    requires Inv(w) && CanTick(w, elapsed)
    ensures Inv(w.(now := w.now + elapsed))
  {
  }

  /** One slot per reservation: after its request is done, the key is nobody's. */
  lemma ReservedOnce(w: World, r: nat)
    requires Inv(w) && r in w.requests && !w.requests[r].phase.Looking?
    ensures var q := w.requests[r]; !IsReserved(w.Done(r), q.inst, q.key)
  {
  }

  lemma NextInv(w: World)
    requires Inv(w)
    ensures Inv(w.(next := w.next + 1))
  {
  }

  lemma ReservedIsPinned(w: World, i: nat, j: Key)
    requires Inv(w) && i < |w.locals| && IsReserved(w, i, j)
    ensures j in w.locals[i].records && w.locals[i].records[j].expires > w.now && !w.locals[i].records[j].evictable
  {
  }

  lemma DisplacedInv(w: World, more: set<(nat, nat)>)
    requires Inv(w)
    ensures Inv(w.(displaced := w.displaced + more))
  {
    var w' := w.(displaced := w.displaced + more);
    forall g | 0 <= g < |w.grants| && w.now < w.grants[g].at + TTL
      ensures Blocks(w.shared, w'.displaced, w.store, w.locals, w.grants[g])
    {
      assert Blocks(w.shared, w.displaced, w.store, w.locals, w.grants[g]);
    }
    forall g, h | 0 <= g < h < |w.grants| && Rivals(w.shared, w'.displaced, w.grants[g], w.grants[h])
      ensures w.grants[g].at + TTL <= w.grants[h].at
    {
      assert Rivals(w.shared, w.displaced, w.grants[g], w.grants[h]);
    }
  }

  /** What is left of instance i when a request for k has arrived, before it reserves. */
  function Cleared(w: World, i: nat, k: Key, gone: set<Key>): World
    requires i < |w.locals|
  {
    w.Keep(i, Admit(RemoveAll(w.locals[i], gone), k, w.now).0)
     .(displaced := w.displaced + Evicted(w, i, k, gone))
  }

  /** Sweeping and evicting never touch a reservation. */
  lemma MakeRoomInv(w: World, i: nat, k: Key, gone: set<Key>)
    requires Inv(w) && i < |w.locals| && Swept(w.locals[i], gone, w.now)
    ensures Inv(Cleared(w, i, k, gone))
  {
    var l := w.locals[i];
    var m := RemoveAll(l, gone);
    var room := Admit(m, k, w.now).0;
    var w1 := w.(displaced := w.displaced + Evicted(w, i, k, gone));
    DisplacedInv(w, Evicted(w, i, k, gone));
    RemoveAllCoherent(l, gone);
    AdmitCoherent(m, k, w.now);
    AdmitKeepsOnly(m, k, w.now);
    forall j | j in l.records && j !in room.records
      ensures !IsReserved(w1, i, j)
      ensures w.shared || l.records[j].expires <= w.now || WasDisplaced(w1, i, j)
    {
      if j in m.records {
        AdmitDropsOnly(m, k, w.now, j);
      }
      if IsReserved(w1, i, j) {
        ReservedIsPinned(w1, i, j);
      }
    }
    ShrinkInv(w1, i, room);
    assert w1.Keep(i, room) == Cleared(w, i, k, gone);
  }

  lemma ArriveInv(w: World, i: nat, k: Key, gone: set<Key>, after: Slots, out: Admission)
    requires Inv(w) && i < |w.locals| && BeginsAfter(w.locals[i], gone, k, w.now, w.next, after, out)
    ensures Inv(AfterArrive(w, i, k, gone, after, out))
  {
    match out
    case Replay(record) => ArriveReplayInv(w, i, k, gone, after, record);
    case Full => ArriveFullInv(w, i, k, gone, after);
    case Reserved => ArriveReservedInv(w, i, k, gone, after);
  }

  lemma ArriveReplayInv(w: World, i: nat, k: Key, gone: set<Key>, after: Slots, record: Record)
    requires Inv(w) && i < |w.locals|
    requires BeginsAfter(w.locals[i], gone, k, w.now, w.next, after, Admission.Replay(record))
    ensures Inv(AfterArrive(w, i, k, gone, after, Admission.Replay(record)))
  {
    var w1 := Cleared(w, i, k, gone).(next := w.next + 1);
    MakeRoomInv(w, i, k, gone);
    ReplayAnswers(w, i, k, gone);
    NextInv(Cleared(w, i, k, gone));
    RepliedInv(w1, k, record);
    ReplayReplies(w, i, k, gone, after, record);
  }

  lemma ReplayReplies(w: World, i: nat, k: Key, gone: set<Key>, after: Slots, record: Record)
    requires i < |w.locals| && ValidRecord(record)
    requires after == Admit(RemoveAll(w.locals[i], gone), k, w.now).0
    ensures AfterArrive(w, i, k, gone, after, Admission.Replay(record))
            == Cleared(w, i, k, gone).(next := w.next + 1).Replied(k, record)
  {
  }

  lemma ArriveFullInv(w: World, i: nat, k: Key, gone: set<Key>, after: Slots)
    requires Inv(w) && i < |w.locals| && BeginsAfter(w.locals[i], gone, k, w.now, w.next, after, Admission.Full)
    ensures Inv(AfterArrive(w, i, k, gone, after, Admission.Full))
  {
    var w1 := Cleared(w, i, k, gone);
    MakeRoomInv(w, i, k, gone);
    if w.shared {
      LookingInv(w1, i, k);
    } else {
      NextInv(w1);
    }
  }

  lemma ArriveReservedInv(w: World, i: nat, k: Key, gone: set<Key>, after: Slots)
    requires Inv(w) && i < |w.locals| && BeginsAfter(w.locals[i], gone, k, w.now, w.next, after, Admission.Reserved)
    ensures Inv(AfterArrive(w, i, k, gone, after, Admission.Reserved))
  {
    var m := RemoveAll(w.locals[i], gone);
    MakeRoomInv(w, i, k, gone);
    RemoveAllCoherent(w.locals[i], gone);
    AdmitCoherent(m, k, w.now);
    TakeSlotInv(Cleared(w, i, k, gone), i, k);
    KeepTwice(w, i, k, gone, after);
  }

  lemma KeepTwice(w: World, i: nat, k: Key, gone: set<Key>, after: Slots)
    requires i < |w.locals| && after == Reserve(Admit(RemoveAll(w.locals[i], gone), k, w.now).0, k, w.now, w.next)
    ensures var w1 := Cleared(w, i, k, gone);
            AfterArrive(w, i, k, gone, after, Admission.Reserved)
            == if w.shared then Fresh(w1, i, k, Claiming)
               else Fresh(w1, i, k, Owning(|w.grants|)).Granted(w.next, k, i)
  {
  }

  lemma ReplayAnswers(w: World, i: nat, k: Key, gone: set<Key>)
    requires Inv(w) && i < |w.locals| && Swept(w.locals[i], gone, w.now)
    requires Admit(RemoveAll(w.locals[i], gone), k, w.now).1.Replay?
    ensures var record := Admit(RemoveAll(w.locals[i], gone), k, w.now).1.record;
            && ValidRecord(record)
            && (Terminal(record) ==> Answers(w.delay, w.grants, Reply(k, record, w.now)))
  {
  }

  lemma TakeSlotInv(w: World, i: nat, k: Key)
    requires Inv(w) && i < |w.locals| && k !in w.locals[i].records && |w.locals[i].records| < MAX_RECORDS
    ensures w.shared ==> Inv(Fresh(w, i, k, Claiming))
    ensures !w.shared ==> Inv(Fresh(w, i, k, Owning(|w.grants|)).Granted(w.next, k, i))
  {
    ReserveCoherent(w.locals[i], k, w.now, w.next);
    if w.shared {
      ReserveInv(w, i, k);
    } else {
      ReserveGrantInv(w, i, k);
    }
  }

  lemma SourcedAnswers(w: World, k: Key, record: Record, limit: Time)
    requires Inv(w) && w.now < limit
    requires Terminal(record) ==> Sourced(w.grants, k, record, limit, BUDGET + w.delay + 2 * TTL - 1)
    ensures Terminal(record) ==> Answers(w.delay, w.grants, Reply(k, record, w.now))
  {
  }

  lemma ClaimInv(w: World, r: nat, failed: bool, applied: bool)
    requires Inv(w) && r in w.requests && w.requests[r].phase.Claiming?
    ensures Inv(AfterClaim(w, r, failed, applied))
  {
    var q := w.requests[r];
    assert OwnsGrant(w.shared, w.grants, r, q);
    StoredInv(w, q.key, PENDING);
    if failed {
      LateInv(w, LateClaim(q.key, w.now + w.delay));
      AtInv(if !applied then w.LeftUnderWay(LateClaim(q.key, w.now + w.delay))
            else if w.Live(q.key) then w
            else w.Stored(q.key, PENDING), r, Releasing);
    } else if w.Live(q.key) {
      AtInv(w, r, Reading);
    } else {
      GrantInv(w.Stored(q.key, PENDING), r);
    }
  }

  lemma ReadInv(w: World, r: nat, ok: bool)
    requires Inv(w) && r in w.requests && w.requests[r].phase.Reading?
    requires ok ==> w.Live(w.requests[r].key)
    ensures var k := w.requests[r].key;
            Inv(w.At(r, if ok then Installing(w.store[k].record) else Releasing))
  {
    var q := w.requests[r];
    if ok {
      var c := w.store[q.key];
      assert CellOk(w.delay, w.grants, w.held, q.key, c) && OnTime(w.now, w.next, r, q);
      if Terminal(c.record) {
        SourcedLater(w.grants, q.key, c.record, c.expires, BUDGET + w.delay + TTL,
                     q.start + TTL, BUDGET + w.delay + 2 * TTL - 1);
      }
      AtInv(w, r, Installing(c.record));
    } else {
      AtInv(w, r, Releasing);
    }
  }

  lemma SourcedLater(grants: seq<Grant>, k: Key, record: Record, limit: Time, span: Time, limit': Time, span': Time)
    requires Sourced(grants, k, record, limit, span) && limit' - limit <= span' - span
    ensures Sourced(grants, k, record, limit', span')
  {
  }

  lemma ReleaseInv(w: World, r: nat)
    requires Inv(w) && Holds(w, r) && w.requests[r].phase.Releasing?
    ensures var q := w.requests[r]; Inv(w.Keep(q.inst, Remove(w.locals[q.inst], q.key)).Done(r))
  {
    var q := w.requests[r];
    var l := w.locals[q.inst];
    assert OwnsGrant(w.shared, w.grants, r, q);
    DoneInv(w, r);
    ReservedOnce(w, r);
    RemoveCoherent(l, q.key);
    ShrinkInv(w.Done(r), q.inst, Remove(l, q.key));
  }

  lemma InstallInv(w: World, r: nat)
    requires Inv(w) && Holds(w, r) && w.requests[r].phase.Installing?
    ensures Inv(AfterInstall(w, r))
  {
    var q := w.requests[r];
    var i, k, found, l := q.inst, q.key, q.phase.found, w.locals[q.inst];
    var w1 := w.Done(r);
    assert HoldsSlot(w.locals, r, q) && FoundOk(w.shared, w.delay, w.grants, w.held, q) && OnTime(w.now, w.next, r, q);
    DoneInv(w, r);
    ReservedOnce(w, r);
    InstallCoherent(l, k, found);
    if found.state.Pending? {
      ShrinkInv(w1, i, Install(l, k, found));
    } else {
      RewriteInv(w1, i, k, Install(l, k, found));
    }
    SourcedAnswers(w, k, found, q.start + TTL);
    RepliedInv(w1.Keep(i, Install(l, k, found)), k, found);
  }

  lemma LookInv(w: World, r: nat, ok: bool)
    requires Inv(w) && r in w.requests
    requires ok ==> w.Live(w.requests[r].key)
    ensures var k := w.requests[r].key;
            Inv((if ok then w.Replied(k, w.store[k].record) else w).Done(r))
  {
  }

  lemma AttemptInv(w: World, r: nat, contacts: nat, outcome: Record)
    requires Inv(w)
    requires r in w.requests && w.requests[r].phase.Owning? && w.requests[r].phase.grant < |w.grants|
    requires contacts <= 1
    ensures Inv(AfterAttempt(w, r, contacts, outcome))
  {
    var w' := AfterAttempt(w, r, contacts, outcome);
    assert OwnsGrant(w.shared, w.grants, r, w.requests[r]);
    VouchedGrows(w, w'.grants);
    AttemptOwners(w, r, contacts, outcome);
    AttemptGrants(w, r, contacts, outcome);
    AttemptSpacing(w, r, contacts, outcome);
    DecidingHolds(w, r, w'.grants, w'.requests[r].phase);
  }

  lemma DecidingHolds(w: World, r: nat, grants: seq<Grant>, p: Phase)
    requires r in w.requests && w.requests[r].phase.Owning? && p.Deciding?
    requires Timely(w.now, w.next, w.requests) && Exclusive(w.locals, w.requests)
    requires Found(w.shared, w.delay, grants, w.held, w.requests)
    ensures var m := w.At(r, p).requests;
            && Timely(w.now, w.next, m) && Exclusive(w.locals, m) && Found(w.shared, w.delay, grants, w.held, m)
  {
  }

  lemma AttemptOwners(w: World, r: nat, contacts: nat, outcome: Record)
    requires Inv(w)
    requires r in w.requests && w.requests[r].phase.Owning? && w.requests[r].phase.grant < |w.grants|
    ensures var w' := AfterAttempt(w, r, contacts, outcome); Owners(w.shared, w'.grants, w'.requests)
  {
  }

  lemma AttemptGrants(w: World, r: nat, contacts: nat, outcome: Record)
    requires Inv(w)
    requires r in w.requests && w.requests[r].phase.Owning? && w.requests[r].phase.grant < |w.grants|
    requires contacts <= 1
    ensures var w' := AfterAttempt(w, r, contacts, outcome); Grants(w.now, w.next, w'.requests, w'.grants)
  {
  }

  lemma AttemptSpacing(w: World, r: nat, contacts: nat, outcome: Record)
    requires Blocking(w.now, w.shared, w.displaced, w.store, w.locals, w.grants)
    requires Spaced(w.shared, w.displaced, w.grants)
    requires r in w.requests && w.requests[r].phase.Owning? && w.requests[r].phase.grant < |w.grants|
    ensures var w' := AfterAttempt(w, r, contacts, outcome);
            && Blocking(w.now, w.shared, w.displaced, w.store, w.locals, w'.grants)
            && Spaced(w.shared, w.displaced, w'.grants)
  {
    AttemptsDoNotMatter(w, AfterAttempt(w, r, contacts, outcome).grants);
  }

  /** Blocking and spacing are not about how often a grant was used. */
  lemma AttemptsDoNotMatter(w: World, grants: seq<Grant>)
    requires Blocking(w.now, w.shared, w.displaced, w.store, w.locals, w.grants)
    requires Spaced(w.shared, w.displaced, w.grants)
    requires |grants| == |w.grants|
    requires forall g :: 0 <= g < |grants| ==> grants[g] == w.grants[g].(attempts := grants[g].attempts)
    ensures Blocking(w.now, w.shared, w.displaced, w.store, w.locals, grants)
    ensures Spaced(w.shared, w.displaced, grants)
  {
    forall h | 0 <= h < |grants| && w.now < grants[h].at + TTL
      ensures Blocks(w.shared, w.displaced, w.store, w.locals, grants[h])
    {
      assert Blocks(w.shared, w.displaced, w.store, w.locals, w.grants[h]);
    }
    forall g, h | 0 <= g < h < |grants| && Rivals(w.shared, w.displaced, grants[g], grants[h])
      ensures grants[g].at + TTL <= grants[h].at
    {
      assert Rivals(w.shared, w.displaced, w.grants[g], w.grants[h]);
    }
  }

  // The outcome of a grant becomes known to its own instance.

  lemma DecideInv(w: World, r: nat)
    requires Inv(w) && Holds(w, r) && w.requests[r].phase.Deciding? && w.requests[r].phase.grant < |w.grants|
    ensures Inv(AfterDecide(w, r))
  {
    UnsettledInv(w, r);
    assert HoldsSlot(w.locals, r, w.requests[r]) && OwnsGrant(w.shared, w.grants, r, w.requests[r]);
    if Terminal(w.requests[r].phase.outcome) {
      DecidedInv(w, r);
      DecidedIs(w, r);
    }
  }

  function AfterDecided(w: World, r: nat): World
    requires Holds(w, r) && w.requests[r].phase.Deciding? && w.requests[r].phase.grant < |w.grants|
  {
    w.(locals := Told(w, r), grants := Decided(w, r), requests := After(w, r))
  }

  lemma DecidedIs(w: World, r: nat)
    requires Decides(w, r)
    ensures AfterDecide(w, r) == AfterDecided(w, r)
  {
  }

  lemma DecidedInv(w: World, r: nat)
    requires Inv(w) && Decides(w, r)
    ensures Inv(AfterDecided(w, r))
  {
    var q := w.requests[r];
    VouchedGrows(w, Decided(w, r));
    CompleteCoherent(w.locals[q.inst], q.key, q.phase.outcome, w.shared);
    DecideOwners(w, r);
    DecideGrants(w, r);
    DecideEntries(w, r);
    DecideSlots(w, r);
    DecideFound(w, r);
    DecideBlocks(w, r);
    DecideSpacing(w, r);
  }

  function Decided(w: World, r: nat): seq<Grant>
    requires r in w.requests && w.requests[r].phase.Deciding? && w.requests[r].phase.grant < |w.grants|
  {
    var p := w.requests[r].phase;
    w.grants[p.grant := w.grants[p.grant].(outcome := Some(p.outcome))]
  }

  function After(w: World, r: nat): map<nat, Request>
    requires r in w.requests && w.requests[r].phase.Deciding?
  {
    var p := w.requests[r].phase;
    if w.shared then w.requests[r := w.requests[r].(phase := Persisting(p.grant, p.outcome))] else w.requests - {r}
  }

  ghost predicate Decides(w: World, r: nat) {
    && Holds(w, r) && w.requests[r].phase.Deciding? && w.requests[r].phase.grant < |w.grants|
    && Terminal(w.requests[r].phase.outcome)
    && HoldsSlot(w.locals, r, w.requests[r]) && OwnsGrant(w.shared, w.grants, r, w.requests[r])
  }

  function Told(w: World, r: nat): seq<Slots>
    requires Holds(w, r) && w.requests[r].phase.Deciding?
  {
    var q := w.requests[r];
    w.locals[q.inst := Complete(w.locals[q.inst], q.key, q.phase.outcome, w.shared)]
  }

  lemma DecideOwners(w: World, r: nat)
    requires Decides(w, r) && Owners(w.shared, w.grants, w.requests)
    ensures Owners(w.shared, Decided(w, r), After(w, r))
  {
  }

  lemma DecideGrants(w: World, r: nat)
    requires Decides(w, r) && Grants(w.now, w.next, w.requests, w.grants)
    ensures Grants(w.now, w.next, After(w, r), Decided(w, r))
  {
  }

  lemma DecideEntries(w: World, r: nat)
    requires Decides(w, r) && Entries(w.shared, w.delay, Decided(w, r), w.held, w.locals)
    ensures Entries(w.shared, w.delay, Decided(w, r), w.held, Told(w, r))
  {
    var q := w.requests[r];
    assert Decided(w, r)[q.phase.grant].outcome == Some(q.phase.outcome);
    assert Sourced(Decided(w, r), q.key, q.phase.outcome, q.start + TTL, BUDGET + w.delay + 2 * TTL - 1);
    forall j, x | 0 <= j < |w.locals| && x in Told(w, r)[j].records
      ensures EntryOk(w.shared, w.delay, Decided(w, r), w.held, x, Told(w, r)[j].records[x])
    {
      if !(j == q.inst && x == q.key) {
        assert Told(w, r)[j].records[x] == w.locals[j].records[x];
      }
    }
  }

  lemma DecideSlots(w: World, r: nat)
    requires Decides(w, r) && Exclusive(w.locals, w.requests)
    ensures Exclusive(Told(w, r), After(w, r))
  {
  }

  lemma DecideFound(w: World, r: nat)
    requires Decides(w, r) && Found(w.shared, w.delay, Decided(w, r), w.held, w.requests)
    requires Timely(w.now, w.next, w.requests)
    ensures Found(w.shared, w.delay, Decided(w, r), w.held, After(w, r)) && Timely(w.now, w.next, After(w, r))
  {
  }

  lemma DecideBlocks(w: World, r: nat)
    requires Decides(w, r) && Grants(w.now, w.next, w.requests, w.grants)
    requires Blocking(w.now, w.shared, w.displaced, w.store, w.locals, w.grants)
    ensures Blocking(w.now, w.shared, w.displaced, w.store, Told(w, r), Decided(w, r))
  {
  }

  lemma DecideSpacing(w: World, r: nat)
    requires Decides(w, r) && Spaced(w.shared, w.displaced, w.grants)
    ensures Spaced(w.shared, w.displaced, Decided(w, r))
  {
  }

  lemma PersistInv(w: World, r: nat, failed: bool, applied: bool)
    requires Inv(w) && r in w.requests && w.requests[r].phase.Persisting? && (failed || applied)
    ensures Inv(AfterPersist(w, r, failed, applied))
  {
    var q := w.requests[r];
    var k, o, g := q.key, q.phase.outcome, q.phase.grant;
    assert OwnsGrant(w.shared, w.grants, r, q) && OnTime(w.now, w.next, r, q);
    assert GrantOk(w.now, w.next, w.requests, g, w.grants[g]);
    assert Sourced(w.grants, k, o, w.now + TTL, BUDGET + w.delay + TTL);
    assert Sourced(w.grants, k, o, w.now + w.delay, BUDGET + w.delay);
    StoredInv(w, k, o);
    LateInv(w, LateSet(k, o, w.now + w.delay));
    var w1 := if applied then w.Stored(k, o) else w.LeftUnderWay(LateSet(k, o, w.now + w.delay));
    if failed && !o.state.Rejected? {
      UnsettledInv(w1, r);
    } else {
      MarkingInv(w1, r);
    }
  }

  lemma MarkingInv(w: World, r: nat)
    requires Inv(w) && r in w.requests && w.requests[r].phase.Persisting?
    requires Displaceable(w.shared, w.held, w.requests[r].key, w.requests[r].phase.outcome)
    ensures var p := w.requests[r].phase; Inv(w.At(r, Marking(p.grant, p.outcome)))
  {
  }

  lemma MarkDoneInv(w: World, r: nat)
    requires Inv(w) && Holds(w, r) && w.requests[r].phase.Marking?
    ensures var q := w.requests[r]; Inv(w.Keep(q.inst, MarkIfSame(w.locals[q.inst], q.key, r)).Done(r))
  {
    var q := w.requests[r];
    var l := w.locals[q.inst];
    assert HoldsSlot(w.locals, r, q) && OwnsGrant(w.shared, w.grants, r, q);
    assert FoundOk(w.shared, w.delay, w.grants, w.held, q);
    assert EntryOk(w.shared, w.delay, w.grants, w.held, q.key, l.records[q.key]);
    DoneInv(w, r);
    ReservedOnce(w, r);
    MarkCoherent(l, q.key);
    RewriteInv(w.Done(r), q.inst, q.key, Mark(l, q.key));
  }

  /** What a crash leaves under way is an outcome of a grant, or a claim. */
  lemma UnderWayOk(w: World, i: nat)
    requires Inv(w) && w.shared
    ensures Lates(w.shared, w.delay, w.grants, UnderWay(w, i))
  {
    forall r | r in w.requests && w.requests[r].phase.Persisting?
      ensures LateOk(w.shared, w.delay, w.grants,
                     LateSet(w.requests[r].key, w.requests[r].phase.outcome, w.now + w.delay))
    {
      var q := w.requests[r];
      assert OwnsGrant(w.shared, w.grants, r, q) && OnTime(w.now, w.next, r, q);
      assert GrantOk(w.now, w.next, w.requests, q.phase.grant, w.grants[q.phase.grant]);
      assert Sourced(w.grants, q.key, q.phase.outcome, w.now + w.delay, BUDGET + w.delay);
    }
  }

  lemma CrashInv(w: World, i: nat)
    requires Inv(w) && w.shared && i < |w.locals|
    ensures Inv(AfterCrash(w, i))
  {
    UnderWayOk(w, i);
    var w1 := w.(late := w.late + UnderWay(w, i));
    assert Inv(w1);
    ForgetAllInv(w1, i);
    assert AfterCrash(w, i) == AfterForgetting(w1, i);
  }

  function AfterForgetting(w: World, i: nat): World
    requires i < |w.locals|
  {
    w.Keep(i, Local(map[], [])).(requests := map r | r in w.requests && w.requests[r].inst != i :: w.requests[r])
  }

  lemma ForgetAllInv(w: World, i: nat)
    requires Inv(w) && w.shared && i < |w.locals|
    ensures Inv(AfterForgetting(w, i))
  {
  }

  lemma DeliverInv(w: World, x: Late)
    requires Inv(w) && x in w.late && w.now <= x.until
    ensures Inv(AfterDeliver(w, x))
  {
    assert LateOk(w.shared, w.delay, w.grants, x);
    match x
    case LateClaim(k, _) =>
      if !w.Live(k) {
        StoredInv(w, k, PENDING);
      }
    case LateSet(k, record, until) =>
      SourcedBefore(w.grants, k, record, until, w.now, BUDGET + w.delay);
      StoredInv(w, k, record);
  }

  lemma SourcedBefore(grants: seq<Grant>, k: Key, record: Record, until: Time, now: Time, span: Time)
    requires Sourced(grants, k, record, until, span) && now <= until
    ensures Sourced(grants, k, record, now + TTL, span + TTL)
  {
  }

  lemma EnvironmentKeepsInv(w: World, e: Event, w': World)
    requires Inv(w) && Next(w, e, w') && (e.Tick? || e.Arrive? || e.Crash? || e.Deliver?)
    ensures Inv(w')
  {
    match e
    case Tick(elapsed) => TickInv(w, elapsed);
    case Arrive(i, k, gone, after, out) => ArriveInv(w, i, k, gone, after, out);
    case Crash(i) => CrashInv(w, i);
    case Deliver(x) => DeliverInv(w, x);
  }

  lemma ClaimantKeepsInv(w: World, e: Event, w': World)
    requires Inv(w) && Next(w, e, w') && (e.Claim? || e.Read? || e.Release? || e.InstallPeer? || e.Look?)
    ensures Inv(w')
  {
    match e
    case Claim(r, failed, applied) => ClaimInv(w, r, failed, applied);
    case Read(r, ok) => ReadInv(w, r, ok);
    case Release(r) => ReleaseInv(w, r);
    case InstallPeer(r) => InstallInv(w, r);
    case Look(r, ok) => LookInv(w, r, ok);
  }

  lemma OwnerKeepsInv(w: World, e: Event, w': World)
    requires Inv(w) && Next(w, e, w') && (e.Attempt? || e.Decide? || e.Persist? || e.MarkDone?)
    ensures Inv(w')
  {
    match e
    case Attempt(r, submission, outcome) => AttemptInv(w, r, Contacts(submission), outcome);
    case Decide(r) => DecideInv(w, r);
    case Persist(r, failed, applied) => PersistInv(w, r, failed, applied);
    case MarkDone(r) => MarkDoneInv(w, r);
  }

  lemma NextKeepsInv(w: World, e: Event, w': World)
    requires Inv(w) && Next(w, e, w')
    ensures Inv(w')
  {
    if e.Tick? || e.Arrive? || e.Crash? || e.Deliver? {
      EnvironmentKeepsInv(w, e, w');
    } else if e.Attempt? || e.Decide? || e.Persist? || e.MarkDone? {
      OwnerKeepsInv(w, e, w');
    } else {
      ClaimantKeepsInv(w, e, w');
    }
  }
}
