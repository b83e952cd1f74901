/** What one Gateway instance remembers about broadcasts, as a value: a map of records and the list
    of keys that may be evicted, least recently used first. The type parameter N is the identity of a
    reservation: a heap node in the guard object, a request number in the protocol. */
module GuardState {
  import opened Basics

  type Key = string

  const SECOND: int := 1_000_000_000
  const TTL: int := 24 * 60 * 60 * SECOND
  const MAX_RECORDS: nat := 4096
  const SWEEP_BUDGET: nat := 64

  const CODE_UPSTREAM: int := -32000
  const CODE_SUBMISSION_UNKNOWN: int := -32003

  datatype Status = Pending | Accepted | Rejected | Unknown | Unrecognized(text: string)
  datatype RpcError = RpcError(code: int, message: string)
  datatype Record = Record(state: Status, txHash: string, error: Option<RpcError>)

  const PENDING: Record := Record(Pending, "", None)

  predicate Blank(s: string) {
    forall c :: c in s ==> c == ' ' || '\t' <= c <= '\r'
  }

  predicate ValidRecord(r: Record) {
    match r.state
    case Pending => r.txHash == "" && r.error.None?
    case Accepted => !Blank(r.txHash) && r.error.None?
    case Rejected => r.txHash == "" && r.error.Some? && r.error.value.code == CODE_UPSTREAM
    case Unknown => r.txHash == "" && r.error.Some? && r.error.value.code == CODE_SUBMISSION_UNKNOWN
    case Unrecognized(_) => false
  }

  predicate Terminal(r: Record) {
    ValidRecord(r) && !r.state.Pending?
  }

  datatype Entry<N> = Entry(record: Record, expires: Time, node: N, evictable: bool)
  datatype Local<N> = Local(records: map<Key, Entry<N>>, lru: seq<Key>)

  /** What the first critical section of `begin` decides. */
  datatype Admission = Replay(record: Record) | Full | Reserved

  ghost predicate NoRepeats(s: seq<Key>) {
    forall i, j :: 0 <= i < j < |s| ==> s[i] != s[j]
  }

  /** At most 4096 records, and the list holds exactly the keys marked evictable, without repeats. */
  ghost predicate Coherent<N>(l: Local<N>) {
    && |l.records| <= MAX_RECORDS
    && NoRepeats(l.lru)
    && forall k :: k in l.lru <==> k in l.records && l.records[k].evictable
  }

  // ----- the operations of the source, each one critical section or part of one -----

  function Outside(s: seq<Key>, gone: set<Key>): (r: seq<Key>)
    ensures forall k :: k in r <==> k in s && k !in gone
    ensures |r| <= |s|
  {
    if s == [] then [] else (if s[0] in gone then [] else [s[0]]) + Outside(s[1..], gone)
  }

  /** `removeLocal` of every key in gone. */
  function RemoveAll<N>(l: Local<N>, gone: set<Key>): Local<N> {
    Local(l.records - gone, Outside(l.lru, gone))
  }

  function Remove<N>(l: Local<N>, k: Key): Local<N> {
    if k in l.records then RemoveAll(l, {k}) else l
  }

  /** `markEvictable` */
  function Mark<N>(l: Local<N>, k: Key): Local<N> {
    if k !in l.records || l.records[k].evictable then l
    else Local(l.records[k := l.records[k].(evictable := true)], l.lru + [k])
  }

  /** A replay moves its key to the back of the list. */
  function Touch<N>(l: Local<N>, k: Key): Local<N> {
    if k in l.records && l.records[k].evictable then l.(lru := Outside(l.lru, {k}) + [k]) else l
  }

  function SetRecord<N>(l: Local<N>, k: Key, r: Record): Local<N> {
    if k in l.records then l.(records := l.records[k := l.records[k].(record := r)]) else l
  }

  function Reserve<N>(l: Local<N>, k: Key, now: Time, node: N): Local<N> {
    l.(records := l.records[k := Entry(PENDING, now + TTL, node, false)])
  }

  /** Only expired records go, and the earliest deadlines go first. */
  ghost predicate EarliestExpired<N>(l: Local<N>, gone: set<Key>, now: Time) {
    && gone <= l.records.Keys
    && (forall k :: k in gone ==> l.records[k].expires <= now)
    && (forall g, k :: g in gone && k in l.records && k !in gone ==> l.records[g].expires <= l.records[k].expires)
  }

  /** The bounded expiry sweep: either the budget is spent or nothing expired is left. */
  ghost predicate Swept<N>(l: Local<N>, gone: set<Key>, now: Time) {
    && EarliestExpired(l, gone, now)
    && |gone| <= SWEEP_BUDGET
    && (|gone| < SWEEP_BUDGET ==> forall k :: k in l.records && k !in gone ==> l.records[k].expires > now)
  }

  /** Make room when every slot is taken and something may be evicted. */
  function Evict<N>(l: Local<N>): Local<N> {
    if |l.records| >= MAX_RECORDS && l.lru != [] then Remove(l, l.lru[0]) else l
  }

  /** What `begin` decides after the sweep, and what is left before it reserves. */
  function Admit<N>(l: Local<N>, k: Key, now: Time): (Local<N>, Admission) {
    if k in l.records && l.records[k].expires > now then (Touch(l, k), Replay(l.records[k].record))
    else
      var room := Evict(Remove(l, k));
      (room, if |room.records| >= MAX_RECORDS then Full else Reserved)
  }

  /** The reservation that `Admit` displaces: every slot is taken, and something may be evicted. */
  function Displaces<N>(l: Local<N>, k: Key, now: Time): set<N> {
    if k in l.records && l.records[k].expires > now then {}
    else
      var rest := Remove(l, k);
      if |rest.records| >= MAX_RECORDS && rest.lru != [] && rest.lru[0] in rest.records then
        {rest.records[rest.lru[0]].node}
      else {}
  }

  /** `begin` up to the first unlock, given what the sweep removed. */
  ghost predicate BeginsAfter<N>(l: Local<N>, gone: set<Key>, k: Key, now: Time, node: N,
                                 l': Local<N>, out: Admission)
  {
    && Swept(l, gone, now)
    && var (room, decision) := Admit(RemoveAll(l, gone), k, now);
       out == decision && l' == if out.Reserved? then Reserve(room, k, now, node) else room
  }

  ghost predicate Begins<N>(l: Local<N>, k: Key, now: Time, node: N, l': Local<N>, out: Admission) {
    exists gone :: BeginsAfter(l, gone, k, now, node, l', out)
  }

  /** `begin` after a peer's record was read: keep it if it is final, drop the slot if it is not. */
  function Install<N>(l: Local<N>, k: Key, r: Record): Local<N> {
    if k !in l.records then l
    else if r.state.Pending? then Remove(SetRecord(l, k, r), k)
    else Mark(SetRecord(l, k, r), k)
  }

  /** `complete` up to its first unlock. */
  function Complete<N>(l: Local<N>, k: Key, r: Record, shared: bool): Local<N> {
    if k in l.records && !shared && r.state.Rejected? then Mark(SetRecord(l, k, r), k) else SetRecord(l, k, r)
  }

  /** The last critical section of `complete`: the pointer test, then the mark. */
  function MarkIfSame<N(==)>(l: Local<N>, k: Key, node: N): Local<N> {
    if k in l.records && l.records[k].node == node then Mark(l, k) else l
  }

  // ----- coherence is kept by each -----

  lemma {:induction false} OutsideNoRepeats(s: seq<Key>, gone: set<Key>)
    requires NoRepeats(s)
    ensures NoRepeats(Outside(s, gone))
  {
    if s != [] {
      assert forall i :: 0 <= i < |s[1..]| ==> s[1..][i] == s[i + 1];
      OutsideNoRepeats(s[1..], gone);
      assert s[0] !in s[1..];
    }
  }

  lemma {:induction false} OutsideNothing(s: seq<Key>, gone: set<Key>)
    requires forall k :: k in s ==> k !in gone
    ensures Outside(s, gone) == s
  {
    if s != [] {
      OutsideNothing(s[1..], gone);
    }
  }

  lemma {:induction false} OutsideTwice(s: seq<Key>, a: set<Key>, b: set<Key>)
    ensures Outside(Outside(s, a), b) == Outside(s, a + b)
  {
    if s != [] {
      OutsideTwice(s[1..], a, b);
      var once := Outside(s, a);
      if s[0] !in a {
        assert once[0] == s[0] && once[1..] == Outside(s[1..], a);
      } else {
        assert once == Outside(s[1..], a);
      }
    }
  }

  lemma RemoveTwice<N>(l: Local<N>, gone: set<Key>, k: Key)
    requires k in l.records && k !in gone
    ensures Remove(RemoveAll(l, gone), k) == RemoveAll(l, gone + {k})
  {
    OutsideTwice(l.lru, gone, {k});
    assert l.records - gone - {k} == l.records - (gone + {k});
  }

  lemma SweepOneMore<N>(l: Local<N>, gone: set<Key>, k: Key, now: Time)
    requires EarliestExpired(l, gone, now)
    requires k in l.records && k !in gone && l.records[k].expires <= now
    requires forall j :: j in l.records && j !in gone ==> l.records[k].expires <= l.records[j].expires
    ensures EarliestExpired(l, gone + {k}, now)
    ensures Remove(RemoveAll(l, gone), k) == RemoveAll(l, gone + {k})
    ensures |gone + {k}| == |gone| + 1
  {
    RemoveTwice(l, gone, k);
  }

  lemma RemoveNothing<N>(l: Local<N>)
    ensures RemoveAll(l, {}) == l
  {
    OutsideNothing(l.lru, {});
    assert l.records - {} == l.records;
  }

  lemma SubmapSize<N>(m: map<Key, N>, gone: set<Key>)
    ensures |m - gone| <= |m|
    ensures gone <= m.Keys ==> |m - gone| == |m| - |gone|
  {
  }

  lemma RemoveAllCoherent<N>(l: Local<N>, gone: set<Key>)
    requires Coherent(l)
    ensures Coherent(RemoveAll(l, gone))
  {
    OutsideNoRepeats(l.lru, gone);
    SubmapSize(l.records, gone);
  }

  lemma MarkCoherent<N>(l: Local<N>, k: Key)
    requires Coherent(l)
    ensures Coherent(Mark(l, k))
  {
  }

  lemma TouchCoherent<N>(l: Local<N>, k: Key)
    requires Coherent(l)
    ensures Coherent(Touch(l, k))
  {
    OutsideNoRepeats(l.lru, {k});
  }

  lemma SetRecordCoherent<N>(l: Local<N>, k: Key, r: Record)
    requires Coherent(l)
    ensures Coherent(SetRecord(l, k, r))
  {
  }

  lemma InstallCoherent<N>(l: Local<N>, k: Key, r: Record)
    requires Coherent(l)
    ensures Coherent(Install(l, k, r))
  {
    SetRecordCoherent(l, k, r);
    RemoveAllCoherent(SetRecord(l, k, r), {k});
    MarkCoherent(SetRecord(l, k, r), k);
  }

  lemma CompleteCoherent<N>(l: Local<N>, k: Key, r: Record, shared: bool)
    requires Coherent(l)
    ensures Coherent(Complete(l, k, r, shared))
  {
    SetRecordCoherent(l, k, r);
    MarkCoherent(SetRecord(l, k, r), k);
  }

  lemma RemoveCoherent<N>(l: Local<N>, k: Key)
    requires Coherent(l)
    ensures Coherent(Remove(l, k))
    ensures k in l.records ==> |Remove(l, k).records| == |l.records| - 1
  {
    RemoveAllCoherent(l, {k});
    SubmapSize(l.records, {k});
  }

  /** After making room there is a free slot, unless every slot is taken and nothing may go. */
  lemma EvictCoherent<N>(l: Local<N>)
    requires Coherent(l)
    ensures Coherent(Evict(l))
    ensures |Evict(l).records| >= MAX_RECORDS ==> |l.records| == MAX_RECORDS && l.lru == [] && Evict(l) == l
  {
    if l.lru != [] {
      assert l.lru[0] in l.lru;
      RemoveCoherent(l, l.lru[0]);
    }
  }

  lemma ReserveCoherent<N>(l: Local<N>, k: Key, now: Time, node: N)
    requires Coherent(l) && k !in l.records && |l.records| < MAX_RECORDS
    ensures Coherent(Reserve(l, k, now, node))
  {
  }

  lemma AdmitCoherent<N>(l: Local<N>, k: Key, now: Time)
    requires Coherent(l)
    ensures Coherent(Admit(l, k, now).0)
    ensures Admit(l, k, now).1.Reserved? ==>
              k !in Admit(l, k, now).0.records && |Admit(l, k, now).0.records| < MAX_RECORDS
  {
    TouchCoherent(l, k);
    RemoveCoherent(l, k);
    EvictCoherent(Remove(l, k));
  }

  lemma BeginCoherent<N>(l: Local<N>, k: Key, now: Time, node: N, l': Local<N>, out: Admission)
    requires Coherent(l) && Begins(l, k, now, node, l', out)
    ensures Coherent(l')
  {
    var gone :| BeginsAfter(l, gone, k, now, node, l', out);
    RemoveAllCoherent(l, gone);
    AdmitCoherent(RemoveAll(l, gone), k, now);
    if out.Reserved? {
      ReserveCoherent(Admit(RemoveAll(l, gone), k, now).0, k, now, node);
    }
  }

  // ----- admission -----

  /** Every slot is taken by a live record that may not be displaced. */
  ghost predicate AllPinned<N>(l: Local<N>, now: Time) {
    && |l.records| == MAX_RECORDS
    && forall k :: k in l.records ==> l.records[k].expires > now && !l.records[k].evictable
  }

  /** A key finds no slot exactly when it holds none and all 4096 are pinned, although one sweep
      removes at most 64 expired records. */
  lemma FullExactlyWhenPinned<N>(l: Local<N>, k: Key, now: Time, node: N, l': Local<N>, out: Admission)
    requires Coherent(l) && Begins(l, k, now, node, l', out)
    ensures out.Full? <==> k !in l.records && AllPinned(l, now)
    ensures out.Full? ==> l' == l
  {
    var gone :| BeginsAfter(l, gone, k, now, node, l', out);
    if out.Full? {
      FullIsPinned(l, gone, k, now);
    }
    if k !in l.records && AllPinned(l, now) {
      PinnedIsFull(l, gone, k, now);
    }
  }

  lemma PinnedIsFull<N>(l: Local<N>, gone: set<Key>, k: Key, now: Time)
    requires Coherent(l) && Swept(l, gone, now) && k !in l.records && AllPinned(l, now)
    ensures Admit(RemoveAll(l, gone), k, now) == (l, Full)
  {
    PinnedIsNotSwept(l, gone, now);
    if l.lru != [] {
      FrontIsEvictable(l);
      assert false;
    }
    assert Remove(l, k) == l && Evict(l) == l;
  }

  lemma FrontIsEvictable<N>(l: Local<N>)
    requires Coherent(l) && l.lru != []
    ensures l.lru[0] in l.records && l.records[l.lru[0]].evictable
  {
  }

  lemma PinnedIsNotSwept<N>(l: Local<N>, gone: set<Key>, now: Time)
    requires Swept(l, gone, now) && forall k :: k in l.records ==> l.records[k].expires > now
    ensures RemoveAll(l, gone) == l
  {
    assert forall k :: k in gone ==> k in l.records && l.records[k].expires <= now;
    assert gone == {};
    assert l.records - gone == l.records;
    OutsideNothing(l.lru, gone);
  }

  lemma FullIsPinned<N>(l: Local<N>, gone: set<Key>, k: Key, now: Time)
    requires Coherent(l) && Swept(l, gone, now)
    requires Admit(RemoveAll(l, gone), k, now).1.Full?
    ensures k !in l.records && AllPinned(l, now)
  {
  }

  /** What `begin` may drop: expired records, or one evictable record. */
  lemma BeginDropsOnly<N>(l: Local<N>, k: Key, now: Time, node: N, l': Local<N>, out: Admission, j: Key)
    requires Coherent(l) && Begins(l, k, now, node, l', out)
    requires j in l.records && !(j in l'.records && l'.records[j] == l.records[j])
    ensures l.records[j].expires <= now || l.records[j].evictable
  {
    var gone :| BeginsAfter(l, gone, k, now, node, l', out);
    var m := RemoveAll(l, gone);
    RemoveAllCoherent(l, gone);
    if j !in gone {
      assert j in m.records && m.records[j] == l.records[j];
      if j == k && out.Reserved? {
        assert m.records[k].expires <= now;
      } else {
        AdmitDropsOnly(m, k, now, j);
      }
    }
  }

  lemma AdmitDropsOnly<N>(m: Local<N>, k: Key, now: Time, j: Key)
    requires Coherent(m) && j in m.records
    ensures var l' := Admit(m, k, now).0;
            || (j in l'.records && l'.records[j] == m.records[j])
            || m.records[j].expires <= now
            || (m.records[j].evictable && m.records[j].node in Displaces(m, k, now))
  {
  }

  /** What `Admit` displaces is one evictable record of another key, and every slot was taken. */
  lemma DisplacesEvictable<N>(l: Local<N>, gone: set<Key>, k: Key, now: Time, n: N) returns (j: Key)
    requires Coherent(l) && n in Displaces(RemoveAll(l, gone), k, now)
    ensures |l.records| == MAX_RECORDS && j != k
    ensures j in l.records && l.records[j].node == n && l.records[j].evictable
    ensures j !in Admit(RemoveAll(l, gone), k, now).0.records
  {
    var m := RemoveAll(l, gone);
    var rest := Remove(m, k);
    SubmapSize(l.records, gone);
    RemoveAllCoherent(l, gone);
    RemoveCoherent(m, k);
    FrontIsEvictable(rest);
    j := rest.lru[0];
    assert j !in Evict(rest).records;
  }

  lemma AdmitKeepsOnly<N>(m: Local<N>, k: Key, now: Time)
    ensures var (room, d) := Admit(m, k, now);
            && room.records.Keys <= m.records.Keys
            && (forall j :: j in room.records ==> room.records[j] == m.records[j])
            && (d.Replay? <==> k in m.records && m.records[k].expires > now)
            && (d.Replay? ==> d.record == m.records[k].record)
  {
  }

  /** Whatever `begin` leaves in place was there before, except its own fresh reservation; and it
      replays exactly a live record, which the sweep never touches. */
  lemma BeginKeepsOnly<N>(l: Local<N>, k: Key, now: Time, node: N, l': Local<N>, out: Admission)
    requires Begins(l, k, now, node, l', out)
    ensures forall j :: j in l'.records && !(j == k && out.Reserved?) ==>
              j in l.records && l'.records[j] == l.records[j]
    ensures out.Reserved? ==> k in l'.records && l'.records[k] == Entry(PENDING, now + TTL, node, false)
    ensures out.Replay? <==> k in l.records && l.records[k].expires > now
    ensures out.Replay? ==> out.record == l.records[k].record
  {
    var gone :| BeginsAfter(l, gone, k, now, node, l', out);
    var m := RemoveAll(l, gone);
    var room := Admit(m, k, now).0;
    AdmitKeepsOnly(m, k, now);
    assert k in l.records && l.records[k].expires > now ==> k !in gone && k in m.records;
    forall j | j in l'.records && !(j == k && out.Reserved?)
      ensures j in l.records && l'.records[j] == l.records[j]
    {
      assert j in room.records && l'.records[j] == room.records[j];
    }
  }

  // ----- order of use -----

  /** A replay saves its key: whatever else arrives next, the key is not the one that is evicted, as long
      as another one can be. */
  lemma ReplayProtects<N>(l: Local<N>, k: Key, now: Time, node: N, l': Local<N>, out: Admission,
                          other: Key, now': Time, node': N, l'': Local<N>, out': Admission)
    requires Coherent(l) && Begins(l, k, now, node, l', out) && out.Replay?
    requires l.records[k].evictable && |l'.lru| > 1
    requires other != k && Begins(l', other, now', node', l'', out') && l.records[k].expires > now'
    requires forall j :: j in l'.records ==> l'.records[j].expires > now'
    ensures k in l''.records && l''.records[k] == l.records[k]
  {
    BeginCoherent(l, k, now, node, l', out);
    ReplayIsLast(l, k, now, node, l', out);
    LastIsSpared(l', k, other, now', node', l'', out');
  }

  lemma LastIsSpared<N>(l: Local<N>, k: Key, other: Key, now: Time, node: N, l': Local<N>, out: Admission)
    requires Coherent(l) && k in l.records && |l.lru| > 1 && l.lru[|l.lru| - 1] == k && other != k
    requires Begins(l, other, now, node, l', out)
    requires forall j :: j in l.records ==> l.records[j].expires > now
    ensures k in l'.records && l'.records[k] == l.records[k]
  {
    var gone :| BeginsAfter(l, gone, other, now, node, l', out);
    PinnedIsNotSwept(l, gone, now);
    if other !in l.records {
      assert Remove(l, other) == l && l.lru[0] != k;
    }
  }

  /** After a replay of an evictable record its key is last in line. */
  lemma ReplayIsLast<N>(l: Local<N>, k: Key, now: Time, node: N, l': Local<N>, out: Admission)
    requires Coherent(l) && Begins(l, k, now, node, l', out) && out.Replay?
    requires k in l.records && l.records[k].evictable
    ensures k in l'.records && l'.records[k] == l.records[k]
    ensures l'.lru != [] && l'.lru[|l'.lru| - 1] == k
  {
    var gone :| BeginsAfter(l, gone, k, now, node, l', out);
    assert k !in gone;
  }

  /** One arrival sweeps at most 64 records, all of them expired, and fewer only if no other is. */
  lemma SweepIsBounded<N>(l: Local<N>, k: Key, now: Time, node: N, l': Local<N>, out: Admission)
    returns (gone: set<Key>)
    requires Begins(l, k, now, node, l', out)
    ensures BeginsAfter(l, gone, k, now, node, l', out)
    ensures |gone| <= 64 && forall j :: j in gone ==> j in l.records && l.records[j].expires <= now
    ensures |gone| < 64 ==> forall j :: j in l.records && l.records[j].expires <= now ==> j in gone
  {
    gone :| BeginsAfter(l, gone, k, now, node, l', out);
  }

  /** The records that are valid, one line each; the codes are those of the gateway's replies. */
  lemma ValidRecordsAre(r: Record)
    ensures ValidRecord(r) <==>
              || r == Record(Pending, "", None)
              || (r == Record(Accepted, r.txHash, None)
                  && exists c :: c in r.txHash && c != ' ' && !('\t' <= c <= '\r'))
              || (r == Record(Rejected, "", r.error) && r.error.Some? && r.error.value.code == -32000)
              || (r == Record(Unknown, "", r.error) && r.error.Some? && r.error.value.code == -32003)
  {
  }
}
