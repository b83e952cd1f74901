/** The broadcast claim protocol as a state machine: any number of Gateway instances, any number of
    requests in flight, one shared store, one clock. Every critical section, every store operation and
    the upstream attempt is one step, and steps interleave freely.

    Assumed of the environment: the store is atomic and keeps a value until its TTL is over; a request
    finishes within BUDGET. A write may report an error whether or not it took effect, and may still
    take effect, even repeatedly, for a time that the world fixes: its delay, which may be any. An
    instance may crash whenever the store is shared, and so may leave writes under way. */
module BroadcastProtocol {
  import opened Basics
  import opened GuardState
  import UpstreamEndpoint
  import UpstreamPool

  /** 25 seconds for the request, and one more to persist its outcome. */
  const BUDGET: int := 26 * SECOND

  /** A reservation is identified by the request that made it. */
  type Slots = Local<nat>

  datatype Cell = Cell(record: Record, expires: Time)

  /** Where a request stands between two steps. All but Looking hold a local reservation. */
  datatype Phase =
    | Claiming
    | Reading
    | Releasing
    | Installing(found: Record)
    | Looking
    | Owning(grant: nat)
    | Deciding(grant: nat, outcome: Record)
    | Persisting(grant: nat, outcome: Record)
    | Marking(grant: nat, outcome: Record)

  datatype Request = Request(inst: nat, key: Key, start: Time, phase: Phase)

  /** owner=true was returned. History: grants are only ever appended. */
  datatype Grant = Grant(key: Key, inst: nat, request: nat, at: Time, attempts: nat, outcome: Option<Record>)

  /** owner=false was returned with a record. History. */
  datatype Reply = Reply(key: Key, record: Record, at: Time)

  /** A store write whose caller has stopped waiting for it. */
  datatype Late = LateClaim(key: Key, until: Time) | LateSet(key: Key, record: Record, until: Time)

  /** How an owner contacts a node: one write through the endpoint pool, whatever its rotation, its
      endpoints' histories and their answers; or, for TRON, one exchange with one host, if it is sent
      at all. */
  datatype Submission =
    | PoolWrite(primaries: nat, start: nat,
                before: seq<UpstreamEndpoint.History>, after: seq<UpstreamEndpoint.History>,
                attempts: seq<UpstreamPool.Attempt>, clock: UpstreamPool.Clock,
                asked: Option<nat>, outcome: Option<UpstreamPool.Reply>)
    | TronFetch(sent: bool)

  /** The pool did what it promises of a write. */
  ghost predicate Submits(s: Submission) {
    s.PoolWrite? ==>
      && s.primaries <= |s.before| && (s.primaries > 1 ==> s.start < s.primaries)
      && |s.attempts| == |s.before|
      && UpstreamPool.AskedOnce(UpstreamPool.Order(|s.before|, s.primaries, s.start), s.before, s.after,
                                s.attempts, s.clock, s.asked, s.outcome)
  }

  /** The calls it made, counted in the endpoints' histories. */
  ghost function Contacts(s: Submission): (n: nat)
    requires Submits(s)
    ensures n <= 1
  {
    match s
    case PoolWrite(primaries, start, before, after, attempts, clock, asked, outcome) =>
      UpstreamPool.OrderIsPermutation(|before|, primaries, start);
      UpstreamPool.WriteAddsAtMostOneCall(
        UpstreamPool.Order(|before|, primaries, start), before, after, attempts, clock, asked, outcome);
      UpstreamPool.CallsIn(after) - UpstreamPool.CallsIn(before)
    case TronFetch(sent) => if sent then 1 else 0
  }

  datatype World = World(
    now: Time,
    shared: bool,
    delay: nat,
    store: map<Key, Cell>,
    locals: seq<Slots>,
    requests: map<nat, Request>,
    next: nat,
    grants: seq<Grant>,
    replies: seq<Reply>,
    held: set<(Key, Record)>, // everything the store ever held
    late: set<Late>,
    displaced: set<(nat, nat)>, // instance and request of every record evicted from a full cache
    unsettled: set<nat>) // owners that could not complete, or whose outcome the store did not acknowledge
  {
    predicate Live(k: Key) {
      k in store && store[k].expires > now
    }

    function At(r: nat, phase: Phase): World
      requires r in requests
    {
      this.(requests := requests[r := requests[r].(phase := phase)])
    }

    function LeftUnsettled(r: nat): World {
      this.(unsettled := unsettled + {r})
    }

    function Done(r: nat): World {
      this.(requests := requests - {r})
    }

    function Keep(i: nat, l: Slots): World
      requires i < |locals|
    {
      this.(locals := locals[i := l])
    }

    function Stored(k: Key, r: Record): World {
      this.(store := store[k := Cell(r, now + TTL)], held := held + {(k, r)})
    }

    function LeftUnderWay(x: Late): World {
      this.(late := late + {x})
    }

    function Replied(k: Key, r: Record): World {
      this.(replies := replies + [Reply(k, r, now)])
    }

    function Granted(r: nat, k: Key, i: nat): World {
      this.(grants := grants + [Grant(k, i, r, now, 0, None)])
    }
  }

  datatype Event =
    | Tick(elapsed: Time)
    | Arrive(inst: nat, key: Key, gone: set<Key>, after: Slots, out: Admission)
    | Claim(r: nat, failed: bool, applied: bool)
    | Read(r: nat, ok: bool)
    | Release(r: nat)
    | InstallPeer(r: nat)
    | Look(r: nat, ok: bool)
    | Attempt(r: nat, submission: Submission, outcome: Record)
    | Decide(r: nat)
    | Persist(r: nat, failed: bool, applied: bool)
    | MarkDone(r: nat)
    | Crash(inst: nat)
    | Deliver(x: Late)

  predicate Holds(w: World, r: nat) {
    r in w.requests && w.requests[r].inst < |w.locals|
  }

  /** The clock may not overrun a request. */
  predicate CanTick(w: World, elapsed: Time) {
    elapsed > 0 && forall r :: r in w.requests ==> w.now + elapsed <= w.requests[r].start + BUDGET
  }

  function Evicted(w: World, i: nat, k: Key, gone: set<Key>): set<(nat, nat)>
    requires i < |w.locals|
  {
    set n | n in Displaces(RemoveAll(w.locals[i], gone), k, w.now) :: (i, n)
  }

  /** `begin` up to its first unlock; without a shared store a reservation is a grant. */
  function AfterArrive(w: World, i: nat, k: Key, gone: set<Key>, after: Slots, out: Admission): World
    requires i < |w.locals|
  {
    var w1 := w.Keep(i, after).(next := w.next + 1, displaced := w.displaced + Evicted(w, i, k, gone));
    match out
    case Replay(record) => if ValidRecord(record) then w1.Replied(k, record) else w1
    case Full => if w.shared then w1.(requests := w.requests[w.next := Request(i, k, w.now, Looking)]) else w1
    case Reserved =>
      if w.shared then w1.(requests := w.requests[w.next := Request(i, k, w.now, Claiming)])
      else w1.(requests := w.requests[w.next := Request(i, k, w.now, Owning(|w.grants|))]).Granted(w.next, k, i)
  }

  /** SetNX. An error says nothing about whether the claim was written. */
  function AfterClaim(w: World, r: nat, failed: bool, applied: bool): World
    requires r in w.requests
  {
    var q := w.requests[r];
    if failed then
      (if !applied then w.LeftUnderWay(LateClaim(q.key, w.now + w.delay))
       else if w.Live(q.key) then w
       else w.Stored(q.key, PENDING)).At(r, Releasing)
    else if w.Live(q.key) then w.At(r, Reading)
    else w.Stored(q.key, PENDING).At(r, Owning(|w.grants|)).Granted(r, q.key, q.inst)
  }

  function AfterInstall(w: World, r: nat): World
    requires Holds(w, r) && w.requests[r].phase.Installing?
  {
    var q := w.requests[r];
    if q.key !in w.locals[q.inst].records then w.Done(r)
    else w.Keep(q.inst, Install(w.locals[q.inst], q.key, q.phase.found)).Replied(q.key, q.phase.found).Done(r)
  }

  function AfterAttempt(w: World, r: nat, contacts: nat, outcome: Record): World
    requires r in w.requests && w.requests[r].phase.Owning? && w.requests[r].phase.grant < |w.grants|
  {
    var g := w.requests[r].phase.grant;
    w.At(r, Deciding(g, outcome))
     .(grants := w.grants[g := w.grants[g].(attempts := w.grants[g].attempts + contacts)])
  }

  /** `complete` up to its first unlock. */
  function AfterDecide(w: World, r: nat): World
    requires Holds(w, r) && w.requests[r].phase.Deciding? && w.requests[r].phase.grant < |w.grants|
  {
    var q := w.requests[r];
    var o, g := q.phase.outcome, q.phase.grant;
    if !Terminal(o) || q.key !in w.locals[q.inst].records then w.LeftUnsettled(r).Done(r)
    else
      var w1 := w.Keep(q.inst, Complete(w.locals[q.inst], q.key, o, w.shared))
                 .(grants := w.grants[g := w.grants[g].(outcome := Some(o))]);
      if w.shared then w1.At(r, Persisting(g, o)) else w1.Done(r)
  }

  function AfterPersist(w: World, r: nat, failed: bool, applied: bool): World
    requires r in w.requests && w.requests[r].phase.Persisting?
  {
    var q := w.requests[r];
    var w1 := if applied then w.Stored(q.key, q.phase.outcome)
              else w.LeftUnderWay(LateSet(q.key, q.phase.outcome, w.now + w.delay));
    if failed && !q.phase.outcome.state.Rejected? then w1.LeftUnsettled(r).Done(r)
    else w1.At(r, Marking(q.phase.grant, q.phase.outcome))
  }

  /** The writes that the requests of instance i have under way. */
  function UnderWay(w: World, i: nat): set<Late> {
    (set r | r in w.requests && w.requests[r].inst == i && w.requests[r].phase.Claiming? ::
       LateClaim(w.requests[r].key, w.now + w.delay))
    + (set r | r in w.requests && w.requests[r].inst == i && w.requests[r].phase.Persisting? ::
         LateSet(w.requests[r].key, w.requests[r].phase.outcome, w.now + w.delay))
  }

  function AfterCrash(w: World, i: nat): World
    requires i < |w.locals|
  {
    w.Keep(i, Local(map[], []))
     .(requests := map r | r in w.requests && w.requests[r].inst != i :: w.requests[r],
       late := w.late + UnderWay(w, i))
  }

  function AfterDeliver(w: World, x: Late): World {
    match x
    case LateClaim(k, _) => if w.Live(k) then w else w.Stored(k, PENDING)
    case LateSet(k, record, _) => w.Stored(k, record)
  }

  ghost predicate Next(w: World, e: Event, w': World) {
    match e
    case Tick(elapsed) => CanTick(w, elapsed) && w' == w.(now := w.now + elapsed)
    case Arrive(i, k, gone, after, out) =>
      && i < |w.locals|
      && BeginsAfter(w.locals[i], gone, k, w.now, w.next, after, out)
      && w' == AfterArrive(w, i, k, gone, after, out)
    case Claim(r, failed, applied) =>
      r in w.requests && w.requests[r].phase.Claiming? && w' == AfterClaim(w, r, failed, applied)
    case Read(r, ok) =>
      && r in w.requests && w.requests[r].phase.Reading?
      && var k := w.requests[r].key;
         if ok then w.Live(k) && ValidRecord(w.store[k].record) && w' == w.At(r, Installing(w.store[k].record))
         else w' == w.At(r, Releasing)
    case Release(r) =>
      && Holds(w, r) && w.requests[r].phase.Releasing?
      && var q := w.requests[r];
         w' == w.Keep(q.inst, Remove(w.locals[q.inst], q.key)).Done(r)
    case InstallPeer(r) => Holds(w, r) && w.requests[r].phase.Installing? && w' == AfterInstall(w, r)
    case Look(r, ok) =>
      && r in w.requests && w.requests[r].phase.Looking?
      && var k := w.requests[r].key;
         if ok then w.Live(k) && ValidRecord(w.store[k].record) && w' == w.Replied(k, w.store[k].record).Done(r)
         else w' == w.Done(r)
    case Attempt(r, submission, outcome) =>
      && r in w.requests && w.requests[r].phase.Owning? && w.requests[r].phase.grant < |w.grants|
      && Submits(submission)
      && w' == AfterAttempt(w, r, Contacts(submission), outcome)
    case Decide(r) =>
      && Holds(w, r) && w.requests[r].phase.Deciding? && w.requests[r].phase.grant < |w.grants|
      && w' == AfterDecide(w, r)
    case Persist(r, failed, applied) =>
      && r in w.requests && w.requests[r].phase.Persisting? && (failed || applied)
      && w' == AfterPersist(w, r, failed, applied)
    case MarkDone(r) =>
      && Holds(w, r) && w.requests[r].phase.Marking?
      && var q := w.requests[r];
         w' == w.Keep(q.inst, MarkIfSame(w.locals[q.inst], q.key, r)).Done(r)
    case Crash(i) => w.shared && i < |w.locals| && w' == AfterCrash(w, i)
    case Deliver(x) => x in w.late && w.now <= x.until && w' == AfterDeliver(w, x)
  }

  ghost predicate Init(w: World) {
    && w.store == map[] && w.requests == map[] && w.grants == [] && w.replies == [] && w.held == {}
    && w.late == {} && w.displaced == {} && w.unsettled == {}
    && forall i :: 0 <= i < |w.locals| ==> w.locals[i] == Local(map[], [])
  }

  // ----- the invariant -----

  ghost predicate Inv(w: World) {
    && AllCoherent(w.locals)
    && Timely(w.now, w.next, w.requests)
    && Exclusive(w.locals, w.requests)
    && Owners(w.shared, w.grants, w.requests)
    && Found(w.shared, w.delay, w.grants, w.held, w.requests)
    && Grants(w.now, w.next, w.requests, w.grants)
    && Blocking(w.now, w.shared, w.displaced, w.store, w.locals, w.grants)
    && Spaced(w.shared, w.displaced, w.grants)
    && Cells(w.delay, w.grants, w.held, w.store)
    && Lates(w.shared, w.delay, w.grants, w.late)
    && Entries(w.shared, w.delay, w.grants, w.held, w.locals)
    && Replies(w.delay, w.grants, w.replies)
  }

  ghost predicate AllCoherent(locals: seq<Slots>) {
    forall i :: 0 <= i < |locals| ==> Coherent(locals[i])
  }

  ghost predicate Timely(now: Time, next: nat, requests: map<nat, Request>) {
    forall r :: r in requests ==> OnTime(now, next, r, requests[r])
  }

  predicate OnTime(now: Time, next: nat, r: nat, q: Request) {
    r < next && q.start <= now <= q.start + BUDGET
  }

  /** Reservation exclusivity: from its reservation to its last step, the record of a request's key is
      the request's own, unmarked, and due a TTL after the request started. */
  ghost predicate Exclusive(locals: seq<Slots>, requests: map<nat, Request>) {
    forall r :: r in requests ==> HoldsSlot(locals, r, requests[r])
  }

  predicate HoldsSlot(locals: seq<Slots>, r: nat, q: Request) {
    && q.inst < |locals|
    && (!q.phase.Looking? ==>
          && q.key in locals[q.inst].records
          && locals[q.inst].records[q.key] == Entry(Expected(q.phase), q.start + TTL, r, false))
  }

  function Expected(p: Phase): Record {
    if p.Persisting? || p.Marking? then p.outcome else PENDING
  }

  predicate OwnerPhase(p: Phase) {
    p.Owning? || p.Deciding? || p.Persisting? || p.Marking?
  }

  /** An owner holds a grant of its own, unused until it attempts, without outcome until it decides. */
  ghost predicate Owners(shared: bool, grants: seq<Grant>, requests: map<nat, Request>) {
    forall r :: r in requests ==> OwnsGrant(shared, grants, r, requests[r])
  }

  predicate OwnsGrant(shared: bool, grants: seq<Grant>, r: nat, q: Request) {
    && (!shared ==> q.phase.Owning? || q.phase.Deciding?)
    && (OwnerPhase(q.phase) ==>
          && q.phase.grant < |grants|
          && var x := grants[q.phase.grant];
             && x.request == r && x.key == q.key && x.inst == q.inst && q.start <= x.at
             && (q.phase.Owning? ==> x.attempts == 0)
             && x.outcome == if q.phase.Owning? || q.phase.Deciding? then None else Some(q.phase.outcome))
  }

  /** Each grant was used at most once, and no request in flight but its owner refers to it. */
  ghost predicate Grants(now: Time, next: nat, requests: map<nat, Request>, grants: seq<Grant>) {
    forall g :: 0 <= g < |grants| ==> GrantOk(now, next, requests, g, grants[g])
  }

  predicate GrantOk(now: Time, next: nat, requests: map<nat, Request>, g: nat, x: Grant) {
    && x.at <= now && x.request < next && x.attempts <= 1
    && (x.outcome.Some? ==> Terminal(x.outcome.value))
    && (x.request in requests ==>
          OwnerPhase(requests[x.request].phase) && requests[x.request].phase.grant == g)
  }

  /** A grant less than a TTL old still blocks the next one: in the store when there is one, in the
      owner's own instance when there is not. */
  ghost predicate Blocking(now: Time, shared: bool, displaced: set<(nat, nat)>, store: map<Key, Cell>,
                           locals: seq<Slots>, grants: seq<Grant>)
  {
    forall g :: 0 <= g < |grants| ==> now >= grants[g].at + TTL || Blocks(shared, displaced, store, locals, grants[g])
  }

  predicate Blocks(shared: bool, displaced: set<(nat, nat)>, store: map<Key, Cell>, locals: seq<Slots>, x: Grant) {
    if shared then x.key in store && store[x.key].expires >= x.at + TTL
    else
      Forgotten(displaced, x) ||
      (&& x.inst < |locals| && x.key in locals[x.inst].records
       && var e := locals[x.inst].records[x.key];
          e.node == x.request && e.expires >= x.at + TTL && (e.evictable ==> WasRejected(x)))
  }

  predicate WasRejected(x: Grant) {
    x.outcome.Some? && x.outcome.value.state.Rejected?
  }

  /** The node rejected the submission, and its record was evicted from a full cache. */
  predicate Forgotten(displaced: set<(nat, nat)>, x: Grant) {
    WasRejected(x) && (x.inst, x.request) in displaced
  }

  /** Two grants that must be a TTL apart. Without a shared store each instance arbitrates alone, and
      forgets a rejection when it evicts it. */
  predicate Rivals(shared: bool, displaced: set<(nat, nat)>, x: Grant, y: Grant) {
    x.key == y.key && (shared || (x.inst == y.inst && !Forgotten(displaced, x)))
  }

  ghost predicate Spaced(shared: bool, displaced: set<(nat, nat)>, grants: seq<Grant>) {
    forall g, h :: 0 <= g < h < |grants| && Rivals(shared, displaced, grants[g], grants[h]) ==>
      grants[g].at + TTL <= grants[h].at
  }

  /** record is the outcome of a grant of k made no longer than span before limit. */
  ghost predicate Sourced(grants: seq<Grant>, k: Key, record: Record, limit: Time, span: Time) {
    exists g :: 0 <= g < |grants| && grants[g].key == k && grants[g].outcome == Some(record)
                && limit <= grants[g].at + span
  }

  ghost predicate Answers(delay: nat, grants: seq<Grant>, y: Reply) {
    exists g :: 0 <= g < |grants| && grants[g].key == y.key && grants[g].outcome == Some(y.record)
                && grants[g].at <= y.at <= grants[g].at + BUDGET + delay + 2 * TTL - 2
  }

  ghost predicate Cells(delay: nat, grants: seq<Grant>, held: set<(Key, Record)>, store: map<Key, Cell>) {
    forall k :: k in store ==> CellOk(delay, grants, held, k, store[k])
  }

  ghost predicate CellOk(delay: nat, grants: seq<Grant>, held: set<(Key, Record)>, k: Key, c: Cell) {
    && ValidRecord(c.record) && (k, c.record) in held
    && (Terminal(c.record) ==> Sourced(grants, k, c.record, c.expires, BUDGET + delay + TTL))
  }

  ghost predicate Lates(shared: bool, delay: nat, grants: seq<Grant>, late: set<Late>) {
    forall x :: x in late ==> LateOk(shared, delay, grants, x)
  }

  ghost predicate LateOk(shared: bool, delay: nat, grants: seq<Grant>, x: Late) {
    && shared
    && (x.LateSet? ==> Terminal(x.record) && Sourced(grants, x.key, x.record, x.until, BUDGET + delay))
  }

  /** What may be displaced is final, and either a rejection or known to the store. */
  ghost predicate Displaceable(shared: bool, held: set<(Key, Record)>, k: Key, record: Record) {
    Terminal(record) && (record.state.Rejected? || (shared && (k, record) in held))
  }

  ghost predicate Entries(shared: bool, delay: nat, grants: seq<Grant>, held: set<(Key, Record)>,
                          locals: seq<Slots>)
  {
    forall i, k :: 0 <= i < |locals| && k in locals[i].records ==>
      EntryOk(shared, delay, grants, held, k, locals[i].records[k])
  }

  ghost predicate EntryOk(shared: bool, delay: nat, grants: seq<Grant>, held: set<(Key, Record)>, k: Key,
                          e: Entry<nat>)
  {
    && ValidRecord(e.record)
    && (Terminal(e.record) ==> Sourced(grants, k, e.record, e.expires, BUDGET + delay + 2 * TTL - 1))
    && (e.evictable ==> Displaceable(shared, held, k, e.record))
  }

  ghost predicate Found(shared: bool, delay: nat, grants: seq<Grant>, held: set<(Key, Record)>,
                        requests: map<nat, Request>)
  {
    forall r :: r in requests ==> FoundOk(shared, delay, grants, held, requests[r])
  }

  ghost predicate FoundOk(shared: bool, delay: nat, grants: seq<Grant>, held: set<(Key, Record)>, q: Request) {
    && (q.phase.Installing? ==>
          && shared && ValidRecord(q.phase.found) && (q.key, q.phase.found) in held
          && (Terminal(q.phase.found) ==>
                Sourced(grants, q.key, q.phase.found, q.start + TTL, BUDGET + delay + 2 * TTL - 1)))
    && (q.phase.Marking? ==> Displaceable(shared, held, q.key, q.phase.outcome))
  }

  ghost predicate Replies(delay: nat, grants: seq<Grant>, replies: seq<Reply>) {
    forall y :: y in replies ==> ReplyOk(delay, grants, y)
  }

  ghost predicate ReplyOk(delay: nat, grants: seq<Grant>, y: Reply) {
    ValidRecord(y.record) && (Terminal(y.record) ==> Answers(delay, grants, y))
  }

  lemma InitInv(w: World)
    requires Init(w)
    ensures Inv(w)
  {
  }
}
