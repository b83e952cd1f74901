/** The TTL cache of read results: a map in each process, and optionally a shared store behind it that
    may lose, delay, reorder or replay what was written to it. */
module TtlCache {
  import opened Basics

  type Key = string

  /** A cached result in its encoded form. */
  type Value = string

  datatype Entry = Entry(value: Value, expires: Time)

  type Local = map<Key, Entry>

  /** How many entries the local map may hold before a write sweeps it. */
  const SWEEP_ABOVE: nat := 4096

  const MILLISECOND: int := 1_000_000

  /** The deadline a shared record carries: whole milliseconds, rounded down. */
  function FloorMs(t: Time): (f: Time)
    ensures f <= t < f + MILLISECOND
  {
    t / MILLISECOND * MILLISECOND
  }

  // ----- the local map -----

  function Lookup(m: Local, key: Key, now: Time): Option<Value> {
    if key in m && now <= m[key].expires then Some(m[key].value) else None
  }

  /** A lookup deletes the entry it finds expired. */
  function Looked(m: Local, key: Key, now: Time): Local {
    if key in m && now > m[key].expires then m - {key} else m
  }

  function Swept(m: Local, now: Time): Local {
    map k | k in m && now <= m[k].expires :: m[k]
  }

  function Stored(m: Local, key: Key, entry: Entry, now: Time): Local {
    (if |m| > SWEEP_ABOVE then Swept(m, now) else m)[key := entry]
  }

  /** What the shared store answers: nothing usable (absent, unreachable, oversized or undecodable), or
      a record. */
  type Reply = Option<Entry>

  predicate Fresh(reply: Reply, now: Time) {
    reply.Some? && reply.value.expires > now
  }

  class Cache {
    const ttl: int
    const shared: bool
    var m: Local

    constructor (ttl: int, shared: bool)
      ensures this.ttl == ttl && this.shared == shared && m == map[]
    {
      this.ttl, this.shared, this.m := ttl, shared, map[];
    }

    /** The local map is read at `probed`; the store's reply is judged at `answered` and copied at
        `copied`. */
    method Get(key: Key, probed: Time, reply: Reply, answered: Time, copied: Time) returns (hit: Option<Value>)
      modifies this
      ensures hit == if Lookup(old(m), key, probed).Some? then Lookup(old(m), key, probed)
                     else if shared && Fresh(reply, answered) then Some(reply.value.value)
                     else None
      ensures m == if Lookup(old(m), key, probed).Some? then old(m)
                   else if shared && Fresh(reply, answered) then
                     Stored(Looked(old(m), key, probed), key, reply.value, copied)
                   else Looked(old(m), key, probed)
    {
      if key in m && probed > m[key].expires {
        m := m - {key};
      } else if key in m {
        return Some(m[key].value);
      }
      if !shared || reply.None? || reply.value.expires <= answered {
        return None;
      }
      SetLocal(key, reply.value, copied);
      return Some(reply.value.value);
    }

    /** The record for the shared store, if there is one. */
    method Set(key: Key, value: Value, now: Time) returns (record: Option<Entry>)
      modifies this
      ensures m == Stored(old(m), key, Entry(value, now + ttl), now)
      ensures record == if shared then Some(Entry(value, FloorMs(now + ttl))) else None
    {
      var expires := now + ttl;
      SetLocal(key, Entry(value, expires), now);
      record := if shared then Some(Entry(value, FloorMs(expires))) else None;
    }

    method SetLocal(key: Key, entry: Entry, now: Time)
      modifies this
      ensures m == Stored(old(m), key, entry, now)
    {
      if |m| > SWEEP_ABOVE {
        var pending := m.Keys;
        while pending != {}
          invariant pending <= m.Keys <= old(m).Keys
          invariant forall k :: k in m ==> m[k] == old(m)[k] && (k !in pending ==> now <= m[k].expires)
          invariant forall k :: k in old(m) && now <= old(m)[k].expires ==> k in m
          decreases |pending|
        {
          var k :| k in pending;
          pending := pending - {k};
          if now > m[k].expires {
            m := m - {k};
          }
        }
        assert m == Swept(old(m), now);
      }
      m := m[key := entry];
    }
  }

  // ----- dropping expired entries cannot be observed -----

  /** One call on the local map, and when. */
  datatype Op = Find(key: Key, at: Time) | Store(key: Key, entry: Entry, at: Time)

  predicate InOrder(ops: seq<Op>) {
    forall i, j :: 0 <= i < j < |ops| ==> ops[i].at <= ops[j].at
  }

  /** The answers of the calls, in order, from a map that drops expired entries as the source does. */
  function Answers(m: Local, ops: seq<Op>): seq<Option<Value>>
    decreases |ops|
  {
    if ops == [] then []
    else match ops[0]
      case Find(key, at) => [Lookup(m, key, at)] + Answers(Looked(m, key, at), ops[1..])
      case Store(key, entry, at) => Answers(Stored(m, key, entry, at), ops[1..])
  }

  /** The same from a map that never drops anything. */
  function AnswersKeepingAll(m: Local, ops: seq<Op>): seq<Option<Value>>
    decreases |ops|
  {
    if ops == [] then []
    else match ops[0]
      case Find(key, at) => [Lookup(m, key, at)] + AnswersKeepingAll(m, ops[1..])
      case Store(key, entry, at) => AnswersKeepingAll(m[key := entry], ops[1..])
  }

  /** From t on the two maps answer alike. */
  ghost predicate AlikeFrom(m: Local, full: Local, t: Time) {
    forall k, now :: t <= now ==> Lookup(m, k, now) == Lookup(full, k, now)
  }

  lemma StepsKeepAlike(m: Local, full: Local, op: Op)
    requires AlikeFrom(m, full, op.at)
    ensures op.Find? ==> AlikeFrom(Looked(m, op.key, op.at), full, op.at)
    ensures op.Store? ==> AlikeFrom(Stored(m, op.key, op.entry, op.at), full[op.key := op.entry], op.at)
  {
    forall k, now | op.at <= now
      ensures op.Find? ==> Lookup(Looked(m, op.key, op.at), k, now) == Lookup(full, k, now)
      ensures op.Store? ==>
                Lookup(Stored(m, op.key, op.entry, op.at), k, now) == Lookup(full[op.key := op.entry], k, now)
    {
      assert Lookup(m, k, now) == Lookup(full, k, now);
    }
  }

  lemma {:induction false} AlikeAnswers(m: Local, full: Local, ops: seq<Op>)
    requires InOrder(ops) && (ops == [] || AlikeFrom(m, full, ops[0].at))
    ensures Answers(m, ops) == AnswersKeepingAll(full, ops)
    decreases |ops|
  {
    if ops != [] {
      var op, rest := ops[0], ops[1..];
      StepsKeepAlike(m, full, op);
      assert rest != [] ==> rest[0] == ops[1];
      match op
      case Find(key, at) =>
        assert Lookup(m, key, at) == Lookup(full, key, at);
        AlikeAnswers(Looked(m, key, at), full, rest);
      case Store(key, entry, at) =>
        AlikeAnswers(Stored(m, key, entry, at), full[key := entry], rest);
    }
  }

  /** The sweep and the deletion on lookup change no answer of any sequence of calls. */
  lemma DroppingIsUnobservable(m: Local, ops: seq<Op>)
    requires InOrder(ops)
    ensures Answers(m, ops) == AnswersKeepingAll(m, ops)
  {
    AlikeAnswers(m, m, ops);
  }

  // ----- many instances over one store -----

  /** A Set that happened, and a hit that was answered. */
  datatype Write = Write(key: Key, value: Value, at: Time)

  datatype Hit = Hit(inst: nat, key: Key, value: Value, at: Time)

  /** A lookup that missed locally and now asks the store, or has its reply and is about to copy it. */
  datatype Fetch = Asking(inst: nat, key: Key) | Copying(inst: nat, key: Key, entry: Entry)

  /** The instances share one ttl. The store is the writes themselves: it may answer with the record of
      any of them. */
  datatype World = World(
    ttl: int, shared: bool, now: Time, locals: seq<Local>,
    fetches: map<nat, Fetch>, next: nat,
    writes: set<Write>, hits: set<Hit>)

  datatype Event =
    | Tick(elapsed: Time)
    | Set(inst: nat, key: Key, value: Value)
    | Get(inst: nat, key: Key)
    | Answer(id: nat, reply: Reply)
    | Copy(id: nat)
    | Restart(inst: nat)

  /** Some Set under key wrote the record e to the store. */
  ghost predicate Recorded(w: World, key: Key, e: Entry) {
    exists s :: s in w.writes && s.key == key && e == Entry(s.value, FloorMs(s.at + w.ttl))
  }

  function AfterGet(w: World, i: nat, key: Key): World
    requires i < |w.locals|
  {
    var hit := Lookup(w.locals[i], key, w.now);
    if hit.Some? then w.(hits := w.hits + {Hit(i, key, hit.value, w.now)})
    else
      var looked := w.(locals := w.locals[i := Looked(w.locals[i], key, w.now)]);
      if w.shared then looked.(fetches := w.fetches[w.next := Asking(i, key)], next := w.next + 1) else looked
  }

  function AfterAnswer(w: World, id: nat, reply: Reply): World
    requires id in w.fetches
  {
    var f := w.fetches[id];
    if Fresh(reply, w.now) then
      w.(fetches := w.fetches[id := Copying(f.inst, f.key, reply.value)],
         hits := w.hits + {Hit(f.inst, f.key, reply.value.value, w.now)})
    else w.(fetches := w.fetches - {id})
  }

  ghost predicate Next(w: World, e: Event, w': World) {
    match e
    case Tick(elapsed) => elapsed > 0 && w' == w.(now := w.now + elapsed)
    case Set(i, key, value) =>
      && i < |w.locals|
      && w' == w.(locals := w.locals[i := Stored(w.locals[i], key, Entry(value, w.now + w.ttl), w.now)],
                  writes := w.writes + {Write(key, value, w.now)})
    case Get(i, key) => i < |w.locals| && w' == AfterGet(w, i, key)
    case Answer(id, reply) =>
      && id in w.fetches && w.fetches[id].Asking?
      && (reply.Some? ==> Recorded(w, w.fetches[id].key, reply.value))
      && w' == AfterAnswer(w, id, reply)
    case Copy(id) =>
      && id in w.fetches && w.fetches[id].Copying? && w.fetches[id].inst < |w.locals|
      && var f := w.fetches[id];
         w' == w.(locals := w.locals[f.inst := Stored(w.locals[f.inst], f.key, f.entry, w.now)],
                  fetches := w.fetches - {id})
    case Restart(i) => i < |w.locals| && w' == w.(locals := w.locals[i := map[]])
  }

  ghost predicate Init(w: World) {
    && (forall i :: 0 <= i < |w.locals| ==> w.locals[i] == map[])
    && w.fetches == map[] && w.writes == {} && w.hits == {}
  }

  /** An entry anyone holds under key: written by a Set of that key, with that Set's deadline or its
      shared form. */
  ghost predicate Backed(ttl: int, writes: set<Write>, key: Key, e: Entry) {
    exists s :: s in writes && s.key == key && s.value == e.value
                && (e.expires == s.at + ttl || e.expires == FloorMs(s.at + ttl))
  }

  ghost predicate HitOk(ttl: int, writes: set<Write>, h: Hit) {
    exists s :: s in writes && s.key == h.key && s.value == h.value && h.at - ttl <= s.at <= h.at
  }

  ghost predicate LocalOk(ttl: int, writes: set<Write>, m: Local) {
    forall k :: k in m ==> Backed(ttl, writes, k, m[k])
  }

  ghost predicate LocalsOk(w: World) {
    forall i :: 0 <= i < |w.locals| ==> LocalOk(w.ttl, w.writes, w.locals[i])
  }

  ghost predicate FetchesOk(w: World) {
    forall id :: id in w.fetches && w.fetches[id].Copying? ==>
      Backed(w.ttl, w.writes, w.fetches[id].key, w.fetches[id].entry)
  }

  ghost predicate HitsOk(w: World) {
    forall h :: h in w.hits ==> HitOk(w.ttl, w.writes, h)
  }

  ghost predicate WritesOk(w: World) {
    forall s :: s in w.writes ==> s.at <= w.now
  }

  ghost predicate Inv(w: World) {
    LocalsOk(w) && FetchesOk(w) && HitsOk(w) && WritesOk(w)
  }

  lemma GetKeepsInv(w: World, i: nat, key: Key)
    requires Inv(w) && i < |w.locals|
    ensures Inv(AfterGet(w, i, key))
  {
  }

  lemma AnswerKeepsInv(w: World, id: nat, reply: Reply)
    requires Inv(w) && id in w.fetches && w.fetches[id].Asking?
    requires reply.Some? ==> Recorded(w, w.fetches[id].key, reply.value)
    ensures Inv(AfterAnswer(w, id, reply))
  {
  }

  lemma StoredOk(ttl: int, writes: set<Write>, m: Local, key: Key, e: Entry, now: Time)
    requires LocalOk(ttl, writes, m) && Backed(ttl, writes, key, e)
    ensures LocalOk(ttl, writes, Stored(m, key, e, now))
  {
  }

  lemma BackedByMore(ttl: int, writes: set<Write>, more: set<Write>, key: Key, e: Entry)
    requires Backed(ttl, writes, key, e) && writes <= more
    ensures Backed(ttl, more, key, e)
  {
  }

  lemma LocalByMore(ttl: int, writes: set<Write>, more: set<Write>, m: Local)
    requires LocalOk(ttl, writes, m) && writes <= more
    ensures LocalOk(ttl, more, m)
  {
    forall k | k in m
      ensures Backed(ttl, more, k, m[k])
    {
      BackedByMore(ttl, writes, more, k, m[k]);
    }
  }

  lemma SetKeepsInv(w: World, i: nat, key: Key, value: Value, w': World)
    requires Inv(w) && Next(w, Set(i, key, value), w')
    ensures Inv(w')
  {
    var s := Write(key, value, w.now);
    assert s in w'.writes;
    assert Backed(w.ttl, w'.writes, key, Entry(value, w.now + w.ttl));
    forall j | 0 <= j < |w'.locals|
      ensures LocalOk(w'.ttl, w'.writes, w'.locals[j])
    {
      LocalByMore(w.ttl, w.writes, w'.writes, w.locals[j]);
      StoredOk(w.ttl, w'.writes, w.locals[j], key, Entry(value, w.now + w.ttl), w.now);
    }
    forall id | id in w'.fetches && w'.fetches[id].Copying?
      ensures Backed(w'.ttl, w'.writes, w'.fetches[id].key, w'.fetches[id].entry)
    {
      BackedByMore(w.ttl, w.writes, w'.writes, w.fetches[id].key, w.fetches[id].entry);
    }
  }

  lemma NextKeepsInv(w: World, e: Event, w': World)
    requires Inv(w) && Next(w, e, w')
    ensures Inv(w')
  {
    match e
    case Set(i, key, value) => SetKeepsInv(w, i, key, value, w');
    case Get(i, key) => GetKeepsInv(w, i, key);
    case Answer(id, reply) => AnswerKeepsInv(w, id, reply);
    case Copy(id) =>
      var f := w.fetches[id];
      StoredOk(w.ttl, w.writes, w.locals[f.inst], f.key, f.entry, w.now);
    case _ =>
  }

  ghost predicate Run(ws: seq<World>, es: seq<Event>) {
    && |ws| == |es| + 1 && Init(ws[0])
    && forall n :: 0 <= n < |es| ==> Next(ws[n], es[n], ws[n + 1])
  }

  ghost predicate Reachable(w: World) {
    exists ws, es :: Run(ws, es) && ws[|es|] == w
  }

  lemma {:induction false} RunKeepsInv(ws: seq<World>, es: seq<Event>, n: nat)
    requires Run(ws, es) && n <= |es|
    ensures Inv(ws[n])
  {
    if n > 0 {
      RunKeepsInv(ws, es, n - 1);
      NextKeepsInv(ws[n - 1], es[n - 1], ws[n]);
    }
  }

  lemma ReachableInv(w: World)
    requires Reachable(w)
    ensures Inv(w)
  {
    var ws, es :| Run(ws, es) && ws[|es|] == w;
    RunKeepsInv(ws, es, |es|);
  }

  /** Every hit, on any instance and through either layer, returns a value that some instance Set under
      that key at most one ttl before. */
  lemma HitsAreFresh(w: World, h: Hit)
    requires Reachable(w) && h in w.hits
    ensures exists s :: s in w.writes && s.key == h.key && s.value == h.value && h.at - w.ttl <= s.at <= h.at
  {
    ReachableInv(w);
    assert HitOk(w.ttl, w.writes, h);
  }

  /** However often a value is copied between the layers, it answers no later than the ttl after its
      Set, and loses less than a millisecond of that time. */
  lemma CopyingNeverExtendsLife(w: World, i: nat, key: Key)
    requires Reachable(w) && i < |w.locals| && key in w.locals[i]
    ensures exists s :: s in w.writes && s.key == key && s.value == w.locals[i][key].value
                        && s.at + w.ttl - MILLISECOND < w.locals[i][key].expires <= s.at + w.ttl
  {
    ReachableInv(w);
    assert LocalOk(w.ttl, w.writes, w.locals[i]);
    assert Backed(w.ttl, w.writes, key, w.locals[i][key]);
  }

  // ----- whose value an instance returns -----

  /** What step e puts under key k of instance i: an entry, or nothing where the instance restarts. */
  ghost predicate WritesLocal(w: World, e: Event, i: nat, k: Key) {
    match e
    case Set(j, key, _) => j == i && key == k
    case Copy(id) => id in w.fetches && w.fetches[id].inst == i && w.fetches[id].key == k
    case Restart(j) => j == i
    case _ => false
  }

  ghost function Written(w: World, e: Event, i: nat, k: Key): Option<Entry>
    requires WritesLocal(w, e, i, k)
    requires e.Copy? ==> w.fetches[e.id].Copying?
  {
    match e
    case Set(_, _, value) => Some(Entry(value, w.now + w.ttl))
    case Copy(id) => Some(w.fetches[id].entry)
    case Restart(_) => None
  }

  /** What an entry answers at time t. */
  function Speaks(e: Option<Entry>, t: Time): Option<Value> {
    if e.Some? && t <= e.value.expires then Some(e.value.value) else None
  }

  /** From now on instance i answers for k what e does. */
  ghost predicate AnswersAs(w: World, i: nat, k: Key, e: Option<Entry>) {
    i < |w.locals| && forall t :: w.now <= t ==> Lookup(w.locals[i], k, t) == Speaks(e, t)
  }

  lemma WriteAnswers(w: World, e: Event, w': World, i: nat, k: Key)
    requires Next(w, e, w') && WritesLocal(w, e, i, k)
    ensures AnswersAs(w', i, k, Written(w, e, i, k))
  {
  }

  lemma OthersAnswerAlike(w: World, e: Event, w': World, i: nat, k: Key, x: Option<Entry>)
    requires Next(w, e, w') && !WritesLocal(w, e, i, k) && AnswersAs(w, i, k, x)
    ensures AnswersAs(w', i, k, x)
  {
    forall t | w'.now <= t
      ensures Lookup(w'.locals[i], k, t) == Speaks(x, t)
    {
      assert Lookup(w.locals[i], k, t) == Speaks(x, t);
    }
  }

  /** The last write of k on an instance decides what the instance answers: nothing that happens to other
      keys, on other instances, in the store or in a sweep does. */
  lemma {:induction false} LastWriteDecides(ws: seq<World>, es: seq<Event>, i: nat, k: Key, m: nat, n: nat)
    requires Run(ws, es) && m < n <= |es| && WritesLocal(ws[m], es[m], i, k)
    requires forall t :: m < t < n ==> !WritesLocal(ws[t], es[t], i, k)
    ensures es[m].Copy? ==> ws[m].fetches[es[m].id].Copying?
    ensures AnswersAs(ws[n], i, k, Written(ws[m], es[m], i, k))
  {
    assert Next(ws[m], es[m], ws[m + 1]);
    if n == m + 1 {
      WriteAnswers(ws[m], es[m], ws[n], i, k);
    } else {
      LastWriteDecides(ws, es, i, k, m, n - 1);
      assert Next(ws[n - 1], es[n - 1], ws[n]);
      OthersAnswerAlike(ws[n - 1], es[n - 1], ws[n], i, k, Written(ws[m], es[m], i, k));
    }
  }

  /** An instance reads what it wrote, for the whole ttl, exactly unless the last write of the key since
      then answers otherwise: and short of another Set and a restart, that is the copy of a record that
      a lookup fetched. */
  lemma ReadsItsOwnWrite(ws: seq<World>, es: seq<Event>, i: nat, k: Key, value: Value, m: nat, last: nat, n: nat)
    requires Run(ws, es) && m <= last < n <= |es| && es[m] == Set(i, k, value)
    requires forall t :: m < t < n ==> es[t] != Restart(i) && !(es[t].Set? && es[t].inst == i && es[t].key == k)
    requires WritesLocal(ws[last], es[last], i, k) && forall t :: last < t < n ==> !WritesLocal(ws[t], es[t], i, k)
    requires ws[n].now <= ws[m].now + ws[m].ttl
    ensures i < |ws[n].locals|
    ensures last > m ==> es[last].Copy? && ws[last].fetches[es[last].id].Copying?
    ensures Lookup(ws[n].locals[i], k, ws[n].now) == Some(value) <==>
              || last == m
              || (var f := ws[last].fetches[es[last].id]; f.entry.value == value && ws[n].now <= f.entry.expires)
  {
    LastWriteDecides(ws, es, i, k, last, n);
  }

  /** Such a copy may well be older: here instance 0 answers v1 after its own Set of v2. */
  lemma OwnWriteIsOverwritten(k: Key, v1: Value, v2: Value, ttl: nat) returns (w: World)
    requires v1 != v2 && ttl >= MILLISECOND
    ensures Reachable(w) && w.now == 0 && |w.locals| == 2
    ensures Write(k, v1, 0) in w.writes && Write(k, v2, 0) in w.writes
    ensures Lookup(w.locals[0], k, 0) == Some(v1) && Hit(0, k, v1, 0) in w.hits
  {
    w := World(ttl, true, 0, [map[], map[]], map[], 0, {}, {});
    var ws, es: seq<Event> := [w], [];
    assert Run(ws, es) && ws[|es|] == w;
    var w1 := SetAt(w, 1, k, v1);
    Extend(w, Set(1, k, v1), w1);
    var w2 := AfterGet(w1, 0, k);
    Extend(w1, Get(0, k), w2);
    var w3 := SetAt(w2, 0, k, v2);
    Extend(w2, Set(0, k, v2), w3);
    w := AnswerAndCopy(w3, k, Write(k, v1, 0));
  }

  /** Instance 0, waiting for the store, gets the record of s, and keeps it. */
  lemma AnswerAndCopy(w: World, k: Key, s: Write) returns (w': World)
    requires Reachable(w) && w.now == 0 && |w.locals| == 2 && w.fetches == map[0 := Asking(0, k)]
    requires s in w.writes && s.key == k && s.at == 0 && w.ttl >= MILLISECOND
    ensures Reachable(w') && w'.now == 0 && |w'.locals| == 2 && w'.writes == w.writes
    ensures Lookup(w'.locals[0], k, 0) == Some(s.value) && Hit(0, k, s.value, 0) in w'.hits
  {
    var e := Entry(s.value, FloorMs(w.ttl));
    assert Recorded(w, k, e);
    assert e.expires > 0;
    var w1 := AfterAnswer(w, 0, Some(e));
    Extend(w, Answer(0, Some(e)), w1);
    w' := w1.(locals := w1.locals[0 := Stored(w1.locals[0], k, e, 0)], fetches := w1.fetches - {0});
    Extend(w1, Copy(0), w');
  }

  function SetAt(w: World, i: nat, k: Key, value: Value): World
    requires i < |w.locals|
  {
    w.(locals := w.locals[i := Stored(w.locals[i], k, Entry(value, w.now + w.ttl), w.now)],
       writes := w.writes + {Write(k, value, w.now)})
  }

  lemma Extend(w: World, e: Event, w': World)
    requires Reachable(w) && Next(w, e, w')
    ensures Reachable(w')
  {
    var ws, es :| Run(ws, es) && ws[|es|] == w;
    var ws', es' := ws + [w'], es + [e];
    forall n | 0 <= n < |es'|
      ensures Next(ws'[n], es'[n], ws'[n + 1])
    {
      assert n < |es| ==> Next(ws[n], es[n], ws[n + 1]);
    }
    assert Run(ws', es') && ws'[|es'|] == w';
  }

  // ----- which entries go -----

  /** A write keeps exactly the other entries that still answer if the map has grown above 4096, and all of
      them if it has not; a lookup removes exactly its own key's entry if that is past its deadline. */
  lemma WhatIsKept(m: Local, key: Key, e: Entry, now: Time, k: Key)
    ensures k in Stored(m, key, e, now) <==> k == key || (k in m && (|m| <= 4096 || now <= m[k].expires))
    ensures Stored(m, key, e, now)[key] == e
    ensures k != key && k in Stored(m, key, e, now) ==> Stored(m, key, e, now)[k] == m[k]
    ensures k in Looked(m, key, now) <==> k in m && !(k == key && m[k].expires < now)
    ensures k in Looked(m, key, now) ==> Looked(m, key, now)[k] == m[k]
  {
  }

  /** A local entry answers up to and at its deadline; a shared record answers only before its own, which is
      the Set's deadline rounded down to a millisecond. */
  lemma WhenTheyAnswer(m: Local, key: Key, setAt: Time, ttl: int, value: Value, now: Time)
    ensures var m' := Stored(m, key, Entry(value, setAt + ttl), now);
            Lookup(m', key, now) == if now <= setAt + ttl then Some(value) else None
    ensures Fresh(Some(Entry(value, FloorMs(setAt + ttl))), now) <==> now < (setAt + ttl) / 1_000_000 * 1_000_000
  {
  }
}
