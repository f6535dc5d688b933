/** The per-set LRU list of the cache simulator: a doubly linked list with a
    head and a tail sentinel node and a separately allocated element counter.
    The cache is an array of such lists, one per set; the C program keeps it
    in a global variable, which here is the parameter `cache` of each method. */
module LruList {

  /** A list node (`struct DLLNode`). A freshly allocated node has no
      neighbours; C leaves those fields uninitialised, here they are null. */
  class Node {
    var next: Node?
    var prev: Node?
    var tag: nat

    constructor (tag: nat)
      ensures this.tag == tag && next == null && prev == null
    {
      this.tag := tag;
      next := null;
      prev := null;
    }
  }

  /** The heap-allocated `int` that `capacity` points to. */
  class Counter {
    var value: int

    /** `calloc(1, sizeof(int))`: a zeroed counter. */
    constructor ()
      ensures value == 0
    {
      value := 0;
    }
  }

  /** One set's list (`struct DoublyLinkedList`). The sentinels and the
      counter are allocated once and never replaced, hence `const`.
      `elems` is the abstract content, least recently used first; `Nodes` is
      every node the list is made of, sentinels included. */
  class DLL {
    const head: Node
    const tail: Node
    const capacity: Counter
    ghost var elems: seq<Node>
    ghost var Nodes: set<Node>

    /** The sentinels with the elements between them, in link order. */
    ghost function Chain(): (c: seq<Node>)
      reads this
      ensures |c| == |elems| + 2 && c[0] == head && c[|c| - 1] == tail
    {
      [head] + elems + [tail]
    }

    /** The shape invariant: the chain is made of distinct nodes, each node's
        `next` is its successor and each successor's `prev` is the node. */
    ghost predicate Linked()
      reads this, Nodes
    {
      && (forall i :: 0 <= i < |Chain()| ==> Chain()[i] in Nodes)
      && Distinct(Chain())
      && Adjacent(Chain())
    }

    /** The full invariant: also the counter equals the number of elements.
        It ties the sentinels to the ends of the content: the head's `next`
        is the first element and the tail's `prev` the last, or each other
        when the list is empty. */
    ghost predicate Valid()
      reads this, Nodes, capacity
      ensures Valid() ==>
        && capacity.value == |elems| && head != tail && head in Nodes && tail in Nodes
        && head.next == (if elems == [] then tail else elems[0])
        && tail.prev == (if elems == [] then head else elems[|elems| - 1])
    {
      Linked() &&
      var c := Chain();
      assert c[0] != c[|c| - 1] && c[0] in Nodes && c[|c| - 1] in Nodes;
      assert c[0].next == c[1] && c[|c| - 1].prev == c[|c| - 2];
      capacity.value == |elems|
    }

    /** An empty list: the two sentinels point at each other and the
        counter is zero. */
    ghost predicate Empty()
      reads this, Nodes, capacity
    {
      Linked() && capacity.value == 0 && elems == [] && head.next == tail && tail.prev == head
    }

    /** The body of the `initializeCache` loop for one set (csim.c:40-44):
        two sentinels linked to each other and a zeroed counter. */
    constructor ()
      ensures Empty() && fresh(Nodes) && fresh(capacity)
    {
      var h := new Node(0);
      var t := new Node(0);
      var c := new Counter();
      head := h;
      tail := t;
      capacity := c;
      h.next := t;
      t.prev := h;
      elems := [];
      Nodes := {h, t};
      new;
      assert Chain() == [h, t];
    }

    /** The pointer rewiring of `addLast` (csim.c:50-53): `n` becomes the
        last element, just before the tail sentinel. */
    method LinkLast(n: Node)
      requires Linked() && n !in Nodes
      requires tail.prev != null
      modifies this`elems, this`Nodes, tail`prev, tail.prev`next, n`prev, n`next
      ensures Linked()
      ensures elems == old(elems) + [n] && Nodes == old(Nodes) + {n}
      ensures n.prev == old(tail.prev) && n.next == tail && tail.prev == n
      ensures n.tag == old(n.tag)
      ensures old(tail.prev) in old(Nodes) && tail in old(Nodes)
    {
      ghost var chain := Chain();
      assert tail.prev == chain[|chain| - 2] && tail == chain[|chain| - 1];
      tail.prev.next := n;
      n.prev := tail.prev;
      n.next := tail;
      tail.prev := n;
      elems := elems + [n];
      Nodes := Nodes + {n};
      assert Chain() == chain[..|chain| - 1] + [n, tail];
    }
  }

  /** No node occurs twice in `c`. */
  ghost predicate Distinct(c: seq<Node>) {
    forall i, j :: 0 <= i < j < |c| ==> c[i] != c[j]
  }

  /** Consecutive nodes of `c` point at each other. */
  ghost predicate Adjacent(c: seq<Node>)
    reads c
  {
    forall i :: 0 <= i < |c| - 1 ==> c[i].next == c[i + 1] && c[i + 1].prev == c[i]
  }

  /** Dropping the node at position `k` keeps the others distinct and removes
      exactly that node. */
  lemma DistinctRemove(c: seq<Node>, k: nat)
    requires Distinct(c) && k < |c|
    ensures Distinct(c[..k] + c[k + 1..])
    ensures forall x :: x in c[..k] + c[k + 1..] <==> x in c && x != c[k]
  {
    var d := c[..k] + c[k + 1..];
    assert forall i :: 0 <= i < |d| ==> d[i] == if i < k then c[i] else c[i + 1];
  }

  /** The first `count` sets of the cache are built from separate objects:
      no two share the list object, a node or the counter. */
  ghost predicate Separate(cache: array<DLL>, count: int)
    requires count <= cache.Length
    reads cache, set i | 0 <= i < count :: cache[i]
  {
    forall i, j :: 0 <= i < j < count ==>
      cache[i] != cache[j] && cache[i].Nodes !! cache[j].Nodes && cache[i].capacity != cache[j].capacity
  }

  /** `initializeCache(setNum)` (csim.c:38-47): every set below `setNum` gets
      fresh sentinels linked to each other and a zero counter; the other slots
      of the given array are left alone. */
  method InitializeCache(cache: array<DLL>, setNum: int)
    requires setNum <= cache.Length
    modifies cache
    ensures Separate(cache, setNum)
    ensures forall i :: 0 <= i < setNum ==>
      cache[i].Empty() && fresh(cache[i].Nodes) && fresh(cache[i].capacity)
    ensures forall i :: 0 <= i < cache.Length && setNum <= i ==> cache[i] == old(cache[i])
  {
    var i := 0;
    while i < setNum
      invariant 0 <= i <= if setNum < 0 then 0 else setNum
      invariant Separate(cache, i)
      invariant forall j :: 0 <= j < i ==>
        cache[j].Empty() && fresh(cache[j].Nodes) && fresh(cache[j].capacity)
      invariant forall j :: i <= j < cache.Length ==> cache[j] == old(cache[j])
    {
      label Step:
      var d := new DLL();
      assert forall j :: 0 <= j < i ==>
        cache[j] != d && cache[j].Nodes !! d.Nodes && cache[j].capacity != d.capacity;
      cache[i] := d;
      assert forall j :: 0 <= j < i ==> cache[j] == old@Step(cache[j]);
      i := i + 1;
    }
  }

  /** The pointer rewiring of `deleteNode` (csim.c:58-59): the element `n`
      is bypassed, its neighbours become adjacent, and `n`'s own links are
      left pointing at them. `list` is the list holding `n`, `p` the position
      `n` had in it. */
  method Unlink(ghost list: DLL, n: Node) returns (ghost p: nat)
    requires list.Linked() && n in list.elems
    requires n.prev != null && n.next != null
    modifies list`elems, list`Nodes, n.prev`next, n.next`prev
    ensures list.Linked()
    ensures p < |old(list.elems)| && old(list.elems)[p] == n
    ensures list.elems == old(list.elems)[..p] + old(list.elems)[p + 1..]
    ensures list.Nodes == old(list.Nodes) - {n}
    ensures n.prev == old(n.prev) && n.next == old(n.next) && n.tag == old(n.tag)
    ensures n.prev != null && n.next != null
    ensures n.prev.next == n.next && n.next.prev == n.prev
    ensures n.prev in old(list.Nodes) && n.next in old(list.Nodes)
  {
    ghost var chain := list.Chain();
    p :| 0 <= p < |list.elems| && list.elems[p] == n;
    assert chain[p + 1] == n;
    assert n.prev == chain[p] && n.next == chain[p + 2];
    assert n.prev in list.Nodes && n.next in list.Nodes;
    label Before:
    n.prev.next := n.next;
    n.next.prev := n.prev;
    list.elems := list.elems[..p] + list.elems[p + 1..];
    list.Nodes := list.Nodes - {n};
    ghost var c := list.Chain();
    assert c == chain[..p + 1] + chain[p + 2..];
    DistinctRemove(chain, p + 1);
    forall i | 0 <= i < |list.elems| ensures list.elems[i] in list.Nodes {
      assert list.elems[i] == c[i + 1] && c[i + 1] in c;
      assert list.elems[i] in chain;
    }
    forall i | 0 <= i < |c| - 1
      ensures c[i].next == c[i + 1] && c[i + 1].prev == c[i]
    {
      if i < p {
        assert c[i] == chain[i] && c[i + 1] == chain[i + 1];
        assert chain[i] != chain[p] && chain[i + 1] != chain[p + 2];
        assert old@Before(chain[i].next) == chain[i + 1];
        assert old@Before(chain[i + 1].prev) == chain[i];
      } else if i > p {
        assert c[i] == chain[i + 1] && c[i + 1] == chain[i + 2];
        assert chain[i + 1] != chain[p] && chain[i + 2] != chain[p + 2];
        assert old@Before(chain[i + 1].next) == chain[i + 2];
        assert old@Before(chain[i + 2].prev) == chain[i + 1];
      }
    }
  }

  /** `addLast(n)` (csim.c:49-55): splices `n` in just before the tail
      sentinel, as the most recently used element, and increments the counter.
      The C code dereferences `cache->`, that is `cache[0]`, so it is always
      set 0's list that grows; every other set is left as it was. */
  method AddLast(cache: array<DLL>, n: Node)
    requires 0 < cache.Length && Separate(cache, cache.Length) && (forall i :: 0 <= i < cache.Length ==> cache[i].Linked())
    requires forall i :: 0 <= i < cache.Length ==> n !in cache[i].Nodes
    requires cache[0].tail.prev != null
    modifies cache[0], cache[0].tail`prev, cache[0].tail.prev`next
    modifies n`prev, n`next, cache[0].capacity`value
    ensures Separate(cache, cache.Length) && (forall i :: 0 <= i < cache.Length ==> cache[i].Linked())
    ensures cache[0].elems == old(cache[0].elems) + [n]
    ensures cache[0].Nodes == old(cache[0].Nodes) + {n}
    ensures cache[0].capacity.value == old(cache[0].capacity.value) + 1
    ensures n.prev == old(cache[0].tail.prev) && n.next == cache[0].tail && cache[0].tail.prev == n
    ensures n.tag == old(n.tag)
    ensures forall i :: 1 <= i < cache.Length ==>
      && cache[i].elems == old(cache[i].elems) && cache[i].Nodes == old(cache[i].Nodes)
      && cache[i].capacity.value == old(cache[i].capacity.value)
    ensures old(cache[0].Valid()) ==> cache[0].Valid()
  {
    var s := cache[0];
    ghost var last := s.tail.prev;
    s.LinkLast(n);
    s.capacity.value := s.capacity.value + 1;
    forall i | 1 <= i < cache.Length
      ensures cache[i].Linked() && cache[i].elems == old(cache[i].elems)
      ensures cache[i].Nodes == old(cache[i].Nodes)
    {
      assert last !in old(cache[i].Nodes) && s.tail !in old(cache[i].Nodes);
      assert unchanged(cache[i]) && unchanged(old(cache[i].Nodes));
      assert old(cache[i].Linked());
    }
    assert Separate(cache, cache.Length) by {
      forall i, j | 0 <= i < j < cache.Length
        ensures cache[i].Nodes !! cache[j].Nodes
      {
        assert old(cache[i].Nodes !! cache[j].Nodes);
      }
    }
  }

  /** `deleteNode(n)` (csim.c:57-61): unlinks `n` from whichever list holds
      it (set `k`, a proof-only parameter) and decrements set 0's counter,
      since the C code again goes through `cache->`. Only when `k == 0` does
      that counter still equal its list's length. `p` is the position `n`
      had in its list. */
  method DeleteNode(cache: array<DLL>, n: Node, ghost k: nat) returns (ghost p: nat)
    requires k < cache.Length && Separate(cache, cache.Length) && (forall i :: 0 <= i < cache.Length ==> cache[i].Linked())
    requires n in cache[k].elems
    requires n.prev != null && n.next != null
    modifies cache[k], n.prev`next, n.next`prev, cache[0].capacity`value
    ensures Separate(cache, cache.Length) && (forall i :: 0 <= i < cache.Length ==> cache[i].Linked())
    ensures p < |old(cache[k].elems)| && old(cache[k].elems)[p] == n
    ensures cache[k].elems == old(cache[k].elems)[..p] + old(cache[k].elems)[p + 1..]
    ensures cache[k].Nodes == old(cache[k].Nodes) - {n}
    ensures cache[0].capacity.value == old(cache[0].capacity.value) - 1
    ensures n.prev == old(n.prev) && n.next == old(n.next) && n.tag == old(n.tag)
    ensures n.prev != null && n.next != null
    ensures n.prev.next == n.next && n.next.prev == n.prev
    ensures forall i :: 0 <= i < cache.Length && i != k ==>
      cache[i].elems == old(cache[i].elems) && cache[i].Nodes == old(cache[i].Nodes)
    ensures forall i :: 1 <= i < cache.Length ==>
      cache[i].capacity.value == old(cache[i].capacity.value)
    ensures k == 0 && old(cache[0].Valid()) ==> cache[0].Valid()
  {
    p := Unlink(cache[k], n);
    cache[0].capacity.value := cache[0].capacity.value - 1;
    forall i | 0 <= i < cache.Length && i != k
      ensures cache[i].Linked() && cache[i].elems == old(cache[i].elems)
      ensures cache[i].Nodes == old(cache[i].Nodes)
    {
      assert n.prev !in old(cache[i].Nodes) && n.next !in old(cache[i].Nodes);
      assert unchanged(cache[i]) && unchanged(old(cache[i].Nodes));
      assert old(cache[i].Linked());
    }
  }

  /** `addLast(n)` followed by `deleteNode(n)` gives set 0 back exactly as it
      was: the same elements in the same order, every link of its chain as
      before, and the same count; no other set is touched. */
  method AddThenDelete(cache: array<DLL>, n: Node)
    requires 0 < cache.Length && Separate(cache, cache.Length) && (forall i :: 0 <= i < cache.Length ==> cache[i].Linked())
    requires forall i :: 0 <= i < cache.Length ==> n !in cache[i].Nodes
    requires cache[0].tail.prev != null
    modifies cache[0], cache[0].tail`prev, cache[0].tail.prev`next
    modifies n`prev, n`next, cache[0].capacity`value
    ensures Separate(cache, cache.Length) && (forall i :: 0 <= i < cache.Length ==> cache[i].Linked())
    ensures forall i :: 0 <= i < cache.Length ==>
      && cache[i].elems == old(cache[i].elems) && cache[i].Nodes == old(cache[i].Nodes)
      && cache[i].capacity.value == old(cache[i].capacity.value)
    ensures unchanged(old(cache[0].Nodes))
  {
    ghost var before := cache[0].elems;
    ghost var chain := cache[0].Chain();
    ghost var last := cache[0].tail.prev;
    assert last == chain[|chain| - 2] && last.next == cache[0].tail;
    assert n !in before by {
      forall j | 0 <= j < |before| ensures before[j] in cache[0].Nodes {
        assert before[j] == chain[j + 1];
      }
    }
    AddLast(cache, n);
    ghost var p := DeleteNode(cache, n, 0);
    assert p == |before|;
    assert cache[0].elems == before by {
      assert (before + [n])[..p] == before;
    }
    assert last.next == cache[0].tail && cache[0].tail.prev == last;
  }
}
