/** The expiry index of the broadcast guard: Go's `container/heap` over a slice of nodes that know
    their own position, so that any node can be removed. */
module ExpiryHeap {
  import opened Basics
  import opened GuardState

  class BroadcastExpiry {
    const key: Key
    const at: Time
    var index: int

    constructor (key: Key, at: Time)
      ensures this.key == key && this.at == at
    {
      this.key, this.at, index := key, at, 0;
    }
  }

  function Parent(k: int): int {
    (k - 1) / 2
  }

  /** No node among the first n is due before its parent. */
  ghost predicate Ordered(s: seq<BroadcastExpiry>, n: nat)
    requires n <= |s|
  {
    forall k :: 0 < k < n ==> s[Parent(k)].at <= s[k].at
  }

  /** Ordered, except that nothing is known about node i and its parent. */
  ghost predicate OrderedAbove(s: seq<BroadcastExpiry>, n: nat, i: nat)
    requires n <= |s|
  {
    && (forall k :: 0 < k < n && k != i ==> s[Parent(k)].at <= s[k].at)
    && BridgesOver(s, n, i)
  }

  /** Ordered, except that nothing is known about node i and its children, nor, when open, about node
      i and its parent. */
  ghost predicate OrderedBelow(s: seq<BroadcastExpiry>, n: nat, i: nat, open: bool)
    requires n <= |s|
  {
    && (forall k :: 0 < k < n && Parent(k) != i && !(open && k == i) ==> s[Parent(k)].at <= s[k].at)
    && BridgesOver(s, n, i)
  }

  /** The children of node i are not due before its parent. */
  ghost predicate BridgesOver(s: seq<BroadcastExpiry>, n: nat, i: nat)
    requires n <= |s|
  {
    forall k :: 0 < k < n && Parent(k) == i && 0 < i ==> s[Parent(i)].at <= s[k].at
  }

  lemma {:induction false} FirstIsEarliest(s: seq<BroadcastExpiry>, k: nat)
    requires k < |s| && Ordered(s, |s|)
    ensures s[0].at <= s[k].at
  {
    if k > 0 {
      FirstIsEarliest(s, Parent(k));
    }
  }

  function Swapped(s: seq<BroadcastExpiry>, i: nat, j: nat): seq<BroadcastExpiry>
    requires i < |s| && j < |s|
  {
    s[i := s[j]][j := s[i]]
  }

  lemma RiseStep(s: seq<BroadcastExpiry>, n: nat, j: nat)
    requires 0 < j < n <= |s| && OrderedAbove(s, n, j) && s[j].at < s[Parent(j)].at
    ensures OrderedAbove(Swapped(s, Parent(j), j), n, Parent(j))
  {
    var i, t := Parent(j), Swapped(s, Parent(j), j);
    forall k | 0 < k < n && k != i
      ensures t[Parent(k)].at <= t[k].at
    {
      assert s[Parent(k)].at <= s[k].at || k == j;
    }
    forall k | 0 < k < n && Parent(k) == i && 0 < i
      ensures t[Parent(i)].at <= t[k].at
    {
      assert s[Parent(i)].at <= s[i].at;
    }
  }

  lemma SinkStep(s: seq<BroadcastExpiry>, n: nat, i: nat, j: nat, open: bool)
    requires 0 < j < n <= |s| && Parent(j) == i && OrderedBelow(s, n, i, open) && s[j].at < s[i].at
    requires 2 * i + 1 < n ==> s[j].at <= s[2 * i + 1].at
    requires 2 * i + 2 < n ==> s[j].at <= s[2 * i + 2].at
    ensures OrderedBelow(Swapped(s, i, j), n, j, false)
  {
  }

  lemma SinkStops(s: seq<BroadcastExpiry>, n: nat, i: nat, open: bool)
    requires i <= n <= |s| && OrderedBelow(s, n, i, open)
    requires 2 * i + 1 < n ==> s[i].at <= s[2 * i + 1].at
    requires 2 * i + 2 < n ==> s[i].at <= s[2 * i + 2].at
    ensures OrderedAbove(s, n, i)
    ensures !open ==> Ordered(s, n)
  {
  }

  ghost predicate KeepsFrom(s: seq<BroadcastExpiry>, t: seq<BroadcastExpiry>, n: nat) {
    |s| == |t| && forall k :: n <= k < |t| ==> t[k] == s[k]
  }

  class Heap {
    var items: seq<BroadcastExpiry>
    /** The nodes in the heap, whatever their order. */
    ghost var nodes: set<BroadcastExpiry>

    /** Every node sits at its stored index. */
    ghost predicate Indexed()
      reads this, nodes
    {
      && (forall i :: 0 <= i < |items| ==> items[i] in nodes && items[i].index == i)
      && (forall x :: x in nodes ==> 0 <= x.index < |items| && items[x.index] == x)
    }

    ghost predicate Valid()
      reads this, nodes
    {
      Indexed() && Ordered(items, |items|)
    }

    constructor ()
      ensures Valid() && nodes == {}
    {
      items, nodes := [], {};
    }

    method Swap(i: nat, j: nat)
      requires Indexed() && i < |items| && j < |items|
      modifies this`items, nodes
      ensures Indexed()
      ensures items == Swapped(old(items), i, j)
    {
      items := items[i := items[j]][j := items[i]];
      items[i].index := i;
      items[j].index := j;
    }

    method Up(start: nat, ghost n: nat)
      requires Indexed() && start < n <= |items| && OrderedAbove(items, n, start)
      modifies this`items, nodes
      ensures Indexed()
      ensures KeepsFrom(old(items), items, n) && Ordered(items, n)
    {
      var j := start;
      while true
        invariant Indexed()
        invariant KeepsFrom(old(items), items, n)
        invariant 0 <= j < n && OrderedAbove(items, n, j)
        decreases j
      {
        var i := if j == 0 then 0 else (j - 1) / 2; // Go truncates -1 / 2 to 0
        if i == j || !(items[j].at < items[i].at) {
          break;
        }
        RiseStep(items, n, j);
        Swap(i, j);
        j := i;
      }
    }

    /** One turn of the loop in `down`: swap node i with its earlier child if that one is due first. */
    method Sink(i: nat, n: nat, ghost open: bool) returns (j: nat)
      requires Indexed() && i <= n <= |items| && OrderedBelow(items, n, i, open)
      modifies this`items, nodes
      ensures Indexed() && KeepsFrom(old(items), items, n)
      ensures j == i || i < j < n
      ensures j == i ==> OrderedAbove(items, n, i) && (!open ==> Ordered(items, n))
      ensures j > i ==> OrderedBelow(items, n, j, false)
    {
      j := 2 * i + 1;
      if j >= n {
        SinkStops(items, n, i, open);
        return i;
      }
      var j2 := j + 1;
      if j2 < n && items[j2].at < items[j].at {
        j := j2;
      }
      if !(items[j].at < items[i].at) {
        SinkStops(items, n, i, open);
        return i;
      }
      SinkStep(items, n, i, j, open);
      Swap(i, j);
    }

    method Down(start: nat, n: nat) returns (moved: bool)
      requires Indexed() && start <= n <= |items| && OrderedBelow(items, n, start, true)
      modifies this`items, nodes
      ensures Indexed() && KeepsFrom(old(items), items, n)
      ensures moved ==> Ordered(items, n)
      ensures !moved ==> OrderedAbove(items, n, start)
    {
      var i := start;
      var j := Sink(i, n, true);
      while j > i
        invariant Indexed() && KeepsFrom(old(items), items, n)
        invariant start <= i <= j <= n
        invariant j > i ==> OrderedBelow(items, n, j, false)
        invariant j == i ==> OrderedAbove(items, n, i) && (i > start ==> Ordered(items, n))
        decreases n - i, j - i
      {
        i := j;
        j := Sink(i, n, false);
      }
      moved := i > start;
    }

    /** `heap.Push` */
    method Push(x: BroadcastExpiry)
      requires Valid() && x !in nodes
      modifies this, nodes, x
      ensures Valid() && nodes == old(nodes) + {x}
    {
      x.index := |items|;
      items := items + [x];
      nodes := nodes + {x};
      Up(|items| - 1, |items|);
    }

    /** The slice operation behind `heap.Remove`: drop the last node. */
    method Pop() returns (x: BroadcastExpiry)
      requires Indexed() && items != []
      modifies this, nodes
      ensures x == old(items[|items| - 1]) && items == old(items[..|items| - 1])
      ensures Indexed() && nodes == old(nodes) - {x} && x.index == -1
    {
      x := items[|items| - 1];
      x.index := -1;
      items := items[..|items| - 1];
      nodes := nodes - {x};
    }

    /** `heap.Remove` */
    method RemoveAt(i: nat) returns (x: BroadcastExpiry)
      requires Valid() && i < |items|
      modifies this, nodes
      ensures Valid() && x == old(items[i]) && nodes == old(nodes) - {x}
    {
      MoveToEnd(i);
      x := Pop();
    }

    /** Put node i last and the others in heap order. */
    method MoveToEnd(i: nat)
      requires Valid() && i < |items|
      modifies this`items, nodes
      ensures Indexed() && |items| == old(|items|)
      ensures Ordered(items, |items| - 1) && items[|items| - 1] == old(items[i])
    {
      var n := |items| - 1;
      if n != i {
        Swap(i, n);
        var moved := Down(i, n);
        if !moved {
          Up(i, n);
        }
      }
    }
  }
}
