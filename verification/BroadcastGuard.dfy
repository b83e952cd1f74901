/** The broadcast guard's three structures, each pointing into the others: the records by key, the
    expiry heap whose nodes the records hold, and the list of evictable keys. The methods are the
    critical sections of the source, run with the mutex held. */
module BroadcastGuard {
  import opened Basics
  import opened GuardState
  import opened ExpiryHeap

  type Slots = Local<BroadcastExpiry>

  lemma {:induction false} OutsideMiddle(front: seq<Key>, k: Key, back: seq<Key>)
    requires k !in front && k !in back
    ensures Outside(front + ([k] + back), {k}) == front + back
  {
    var all := front + ([k] + back);
    if front == [] {
      assert all[1..] == back;
      OutsideNothing(back, {k});
      assert front + back == back;
    } else {
      assert all[1..] == front[1..] + ([k] + back);
      OutsideMiddle(front[1..], k, back);
      assert front + back == [front[0]] + (front[1..] + back);
    }
  }

  /** Records and heap nodes are each other's: same key, same deadline, nothing left over. */
  ghost predicate Linked(records: map<Key, Entry<BroadcastExpiry>>, nodes: set<BroadcastExpiry>) {
    && (forall k :: k in records ==>
          records[k].node in nodes && records[k].node.key == k && records[k].node.at == records[k].expires)
    && (forall x :: x in nodes ==> x.key in records && records[x.key].node == x)
  }

  lemma LinkedWithout(records: map<Key, Entry<BroadcastExpiry>>, nodes: set<BroadcastExpiry>, key: Key)
    requires Linked(records, nodes) && key in records
    ensures Linked(records - {key}, nodes - {records[key].node})
  {
  }

  lemma LinkedWith(records: map<Key, Entry<BroadcastExpiry>>, nodes: set<BroadcastExpiry>, x: BroadcastExpiry)
    requires Linked(records, nodes) && x.key !in records
    ensures Linked(records[x.key := Entry(PENDING, x.at, x, false)], nodes + {x})
  {
  }

  class Guard {
    const expiries: Heap
    var records: map<Key, Entry<BroadcastExpiry>>
    var evictable: seq<Key>

    ghost function View(): Slots
      reads this
    {
      Local(records, evictable)
    }

    /** Each record's node is in the heap under its own key and deadline, each node of the heap
        belongs to the record of its key, the heap order and the stored indices hold, and the list
        holds exactly the evictable keys. */
    ghost predicate Valid()
      reads this, expiries, expiries.nodes
    {
      && expiries.Valid()
      && Coherent(View())
      && Linked(records, expiries.nodes)
    }

    constructor ()
      ensures Valid() && View() == Local(map[], []) && fresh(expiries)
    {
      expiries := new Heap();
      records, evictable := map[], [];
    }

    /** `list.Remove` of the element that holds key. */
    method Unlink(key: Key)
      requires NoRepeats(evictable) && key in evictable
      modifies this`evictable
      ensures evictable == Outside(old(evictable), {key})
    {
      var i := 0;
      while evictable[i] != key
        invariant i < |evictable| && key !in evictable[..i]
        decreases |evictable| - i
      {
        i := i + 1;
      }
      assert evictable == evictable[..i] + ([key] + evictable[i + 1..]);
      OutsideMiddle(evictable[..i], key, evictable[i + 1..]);
      evictable := evictable[..i] + evictable[i + 1..];
    }

    method UnlinkIf(listed: bool, key: Key)
      requires NoRepeats(evictable) && (listed <==> key in evictable)
      modifies this`evictable
      ensures evictable == Outside(old(evictable), {key})
    {
      if listed {
        Unlink(key);
      } else {
        OutsideNothing(evictable, {key});
      }
    }

    method RemoveLocal(key: Key)
      requires Valid()
      modifies this, expiries, expiries.nodes
      ensures Valid() && View() == Remove(old(View()), key)
      ensures expiries.nodes <= old(expiries.nodes)
    {
      RemoveCoherent(View(), key);
      if key !in records {
        return;
      }
      UnlinkIf(records[key].evictable, key);
      Forget(key);
    }

    /** Drop the heap node of key, and then its record. */
    method Forget(key: Key)
      requires expiries.Valid() && Linked(records, expiries.nodes) && key in records
      modifies this`records, expiries, expiries.nodes
      ensures expiries.Valid() && Linked(records, expiries.nodes)
      ensures records == old(records) - {key} && expiries.nodes <= old(expiries.nodes)
    {
      var node := records[key].node;
      assert node in expiries.nodes && expiries.items[node.index] == node;
      LinkedWithout(records, expiries.nodes, key);
      var _ := expiries.RemoveAt(node.index);
      records := records - {key};
    }

    method MarkEvictable(key: Key)
      requires Valid()
      modifies this
      ensures Valid() && View() == Mark(old(View()), key)
    {
      MarkCoherent(View(), key);
      if key !in records || records[key].evictable {
        return;
      }
      evictable := evictable + [key];
      records := records[key := records[key].(evictable := true)];
    }

    /** The bounded sweep at the head of `begin`. */
    method Sweep(now: Time) returns (ghost gone: set<Key>)
      requires Valid()
      modifies this, expiries, expiries.nodes
      ensures Valid() && expiries.nodes <= old(expiries.nodes)
      ensures Swept(old(View()), gone, now) && View() == RemoveAll(old(View()), gone)
    {
      ghost var before := View();
      gone := {};
      RemoveNothing(before);
      var budget: nat := SWEEP_BUDGET;
      while budget > 0 && |expiries.items| > 0
        invariant Valid() && expiries.nodes <= old(expiries.nodes)
        invariant budget + |gone| == SWEEP_BUDGET
        invariant EarliestExpired(before, gone, now) && View() == RemoveAll(before, gone)
        decreases budget
      {
        var live;
        live, gone := SweepFirst(now, before, gone);
        if live {
          return;
        }
        budget := budget - 1;
      }
      if |expiries.items| == 0 {
        NothingLeft(now, before, gone);
      }
    }

    lemma NothingLeft(now: Time, before: Slots, gone: set<Key>)
      requires Valid() && |expiries.items| == 0
      requires EarliestExpired(before, gone, now) && View() == RemoveAll(before, gone) && |gone| <= SWEEP_BUDGET
      ensures Swept(before, gone, now)
    {
    }

    /** One turn of the sweep: drop the record of the first node, unless that is still live. */
    method SweepFirst(now: Time, ghost before: Slots, ghost gone: set<Key>) returns (live: bool, ghost gone': set<Key>)
      requires Valid() && |expiries.items| > 0
      requires EarliestExpired(before, gone, now) && View() == RemoveAll(before, gone) && |gone| < SWEEP_BUDGET
      modifies this, expiries, expiries.nodes
      ensures Valid() && expiries.nodes <= old(expiries.nodes)
      ensures EarliestExpired(before, gone', now) && View() == RemoveAll(before, gone')
      ensures live ==> Swept(before, gone', now)
      ensures !live ==> |gone'| == |gone| + 1
    {
      var first := expiries.items[0];
      gone' := gone;
      EveryDeadlineIsAtLeast(first);
      live := first.at > now;
      if !live {
        SweepOneMore(before, gone, first.key, now);
        RemoveLocal(first.key);
        gone' := gone + {first.key};
      }
    }

    lemma EveryDeadlineIsAtLeast(first: BroadcastExpiry)
      requires Valid() && |expiries.items| > 0 && first == expiries.items[0]
      ensures first.key in records && records[first.key].expires == first.at
      ensures forall k :: k in records ==> first.at <= records[k].expires
    {
      forall k | k in records
        ensures first.at <= records[k].expires
      {
        FirstIsEarliest(expiries.items, records[k].node.index);
      }
    }

    /** `begin` up to its first unlock. */
    method Begin(key: Key, now: Time) returns (out: Admission, node: BroadcastExpiry?, ghost gone: set<Key>)
      requires Valid()
      modifies this, expiries, expiries.nodes
      ensures Valid() && fresh(expiries.nodes - old(expiries.nodes))
      ensures Swept(old(View()), gone, now)
      ensures var (room, decision) := Admit(RemoveAll(old(View()), gone), key, now);
              && out == decision
              && (node != null <==> out.Reserved?)
              && View() == if node == null then room else Reserve(room, key, now, node)
      ensures node != null ==> fresh(node)
    {
      gone := Sweep(now);
      out, node := BeginSwept(key, now);
    }

    method BeginSwept(key: Key, now: Time) returns (out: Admission, node: BroadcastExpiry?)
      requires Valid()
      modifies this, expiries, expiries.nodes
      ensures Valid() && fresh(expiries.nodes - old(expiries.nodes))
      ensures var (room, decision) := Admit(old(View()), key, now);
              && out == decision
              && (node != null <==> out.Reserved?)
              && View() == if node == null then room else Reserve(room, key, now, node)
      ensures node != null ==> fresh(node)
    {
      AdmitCoherent(View(), key, now);
      out := AdmitSwept(key, now);
      node := null;
      if out.Reserved? {
        node := ReserveSlot(key, now);
      }
    }

    method AdmitSwept(key: Key, now: Time) returns (out: Admission)
      requires Valid()
      modifies this, expiries, expiries.nodes
      ensures Valid() && expiries.nodes <= old(expiries.nodes)
      ensures (View(), out) == Admit(old(View()), key, now)
    {
      if key in records {
        var existing := records[key];
        if existing.expires > now {
          if existing.evictable {
            MoveToBack(key);
          }
          return Replay(existing.record);
        }
        RemoveLocal(key);
      }
      if |records| >= MAX_RECORDS && |evictable| > 0 {
        RemoveLocal(evictable[0]);
      }
      out := if |records| >= MAX_RECORDS then Full else Reserved;
    }

    method ReserveSlot(key: Key, now: Time) returns (node: BroadcastExpiry)
      requires Valid() && key !in records && |records| < MAX_RECORDS
      modifies this, expiries, expiries.nodes
      ensures Valid() && fresh(node) && expiries.nodes == old(expiries.nodes) + {node}
      ensures View() == Reserve(old(View()), key, now, node)
    {
      node := new BroadcastExpiry(key, now + TTL);
      LinkedWith(records, expiries.nodes, node);
      ReserveCoherent(View(), key, now, node);
      records := records[key := Entry(PENDING, node.at, node, false)];
      expiries.Push(node);
    }

    /** `list.MoveToBack` of the element that holds key. */
    method MoveToBack(key: Key)
      requires Valid() && key in records && records[key].evictable
      modifies this`evictable
      ensures Valid() && View() == Touch(old(View()), key)
    {
      TouchCoherent(View(), key);
      Unlink(key);
      evictable := evictable + [key];
    }

    /** The critical section of `begin` after it has read a peer's record. */
    method InstallPeerRecord(key: Key, existing: Record) returns (found: bool)
      requires Valid()
      modifies this, expiries, expiries.nodes
      ensures Valid() && expiries.nodes <= old(expiries.nodes)
      ensures found <==> key in old(records)
      ensures View() == Install(old(View()), key, existing)
    {
      found := key in records;
      if !found {
        return;
      }
      SetRecordCoherent(View(), key, existing);
      records := records[key := records[key].(record := existing)];
      if existing.state.Pending? {
        RemoveLocal(key);
      } else {
        MarkEvictable(key);
      }
    }

    /** `complete` up to its first unlock: refuse anything but a valid terminal record, and hand back
        the node the caller will compare with later. */
    method CompleteLocally(key: Key, record: Record, shared: bool) returns (node: BroadcastExpiry?)
      requires Valid()
      modifies this
      ensures Valid()
      ensures node != null <==> Terminal(record) && key in old(records)
      ensures node != null ==> node == old(records[key].node) && View() == Complete(old(View()), key, record, shared)
      ensures node == null ==> View() == old(View())
    {
      if !ValidRecord(record) || record.state.Pending? {
        return null;
      }
      if key !in records {
        return null;
      }
      SetRecordCoherent(View(), key, record);
      node := records[key].node;
      records := records[key := records[key].(record := record)];
      if !shared && record.state.Rejected? {
        MarkEvictable(key);
      }
    }

    /** The last critical section of `complete`. */
    method MarkPersisted(key: Key, node: BroadcastExpiry)
      requires Valid()
      modifies this
      ensures Valid() && View() == MarkIfSame(old(View()), key, node)
      ensures key !in old(records) || old(records[key].node) != node ==> View() == old(View())
      ensures key in old(records) && old(records[key].node) == node ==>
                && records == old(records)[key := old(records[key]).(evictable := true)]
                && View().lru == old(View()).lru + if old(records[key].evictable) then [] else [key]
    {
      if key in records && records[key].node == node {
        MarkEvictable(key);
      }
    }
  }
}
