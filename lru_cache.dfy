/**
 * The in-memory content cache: an LRU list of nodes keyed by content hash.
 *
 * The nodes live in a `NodeArena` (their slots stand for object identity) together
 * with the pool of freed nodes that `alloc` reuses; `Lru` keeps the doubly linked
 * recency list over those slots; `LruContentCache` adds the hash index. Each method
 * is proved against the abstract effect given in `LruSpec`.
 */
module LruBufferCache {
  import opened Wrappers
  import opened Bytes
  import opened LruSpec

  /** The capacity of the process-wide default cache. */
  const DEFAULT_CAPACITY: nat := 500

  /** `copyContent`: a new buffer of the same length holding the same bytes. */
  method CopyContent(a: array<byte>) returns (r: array<byte>)
    ensures fresh(r) && r.Length == a.Length && r[..] == a[..]
  {
    r := new byte[a.Length];
    var i := 0;
    while i < a.Length
      invariant 0 <= i <= a.Length
      invariant r[..i] == a[..i]
    {
      r[i] := a[i];
      i := i + 1;
    }
  }

  /** Pooled slots are distinct and hold cleared nodes. */
  ghost predicate PoolSound(nodes: seq<LruNode>, pool: seq<nat>) {
    && (forall i :: 0 <= i < |pool| ==> pool[i] < |nodes| && nodes[pool[i]] == CLEARED)
    && (forall i, j :: 0 <= i < j < |pool| ==> pool[i] != pool[j])
  }

  /** The slot the next `alloc` hands out: the top of the pool, else a new one. */
  function NextSlotOf(nodes: seq<LruNode>, pool: seq<nat>): nat {
    if pool == [] then |nodes| else pool[|pool| - 1]
  }

  /** All nodes ever allocated, by slot, and the pool of freed slots (a stack). */
  class NodeArena {
    var nodes: seq<LruNode>
    var pool: seq<nat>

    ghost predicate Valid()
      reads this
    {
      PoolSound(nodes, pool)
    }

    constructor()
      ensures Valid() && nodes == [] && pool == []
    {
      nodes := [];
      pool := [];
    }

    function NextSlot(): nat
      reads this
    {
      NextSlotOf(nodes, pool)
    }

    /** `LruNode.alloc`: reuse the most recently freed node, else create one; either
        way the node is unlinked and carries `key` and `value`. */
    method Alloc(key: string, value: array<byte>) returns (h: nat)
      requires Valid()
      modifies this
      ensures Valid() && h == old(NextSlot()) && h < |nodes|
      ensures old(pool) == [] ==> pool == [] && nodes == old(nodes) + [LruNode(NIL, NIL, key, value)]
      ensures old(pool) != [] ==>
        pool == old(pool[..|pool| - 1]) && nodes == old(nodes[h := LruNode(NIL, NIL, key, value)])
    {
      if pool != [] {
        h := pool[|pool| - 1];
        pool := pool[..|pool| - 1];
        nodes := nodes[h := nodes[h].(key := key, value := value)];
        return;
      }
      h := |nodes|;
      nodes := nodes + [LruNode(NIL, NIL, key, value)];
    }

    /** `LruNode.free`: clear the node and push it on the pool. */
    method Free(h: nat)
      requires Valid() && h < |nodes| && h !in pool
      modifies this
      ensures Valid() && nodes == old(nodes[h := CLEARED]) && pool == old(pool) + [h]
    {
      nodes := nodes[h := CLEARED];
      pool := pool + [h];
    }
  }

  /** The links of `nodes` list `order`, whose length `size` is within `capacity`. */
  ghost predicate ListSound(nodes: seq<LruNode>, order: seq<nat>, head: int, tail: int, size: nat, capacity: nat) {
    Linked(nodes, order, head, tail) && size == |order| && 1 <= capacity && size <= capacity
  }

  /** The refresh of the node at position `j > 0`, on values: unlinking it and
      pushing it in front keeps the list sound and moves the node to the front. */
  lemma RefreshSound(nodes: seq<LruNode>, order: seq<nat>, head: int, tail: int, size: nat, capacity: nat, j: nat, h: nat,
                      nodes': seq<LruNode>, order': seq<nat>, tail': int)
    requires ListSound(nodes, order, head, tail, size, capacity) && j < |order| && order[j] == h && h != head
    requires NIL <= head < |nodes| && h < |nodes| && NIL <= nodes[h].prev < |nodes| && NIL <= nodes[h].next < |nodes|
    requires nodes' == PushFront(Detach(nodes, h), head, h) && order' == MoveToFront(order, j)
    requires tail' == if h == tail then nodes[h].prev else tail
    ensures ListSound(nodes', order', h, tail', size, capacity) && OnlyLinksChanged(nodes, nodes', order)
  {
    RefreshLinked(nodes, order, head, tail, j);
    RefreshFrame(nodes, order, head, tail, j);
  }

  /** The node at position `j > 0` of a sound list has its links within the arena. */
  lemma RefreshBounds(nodes: seq<LruNode>, order: seq<nat>, head: int, tail: int, size: nat, capacity: nat, j: nat, h: nat)
    requires ListSound(nodes, order, head, tail, size, capacity) && j < |order| && order[j] == h && h != head
    ensures 0 < j && NIL <= head < |nodes| && h < |nodes| && NIL <= nodes[h].prev < |nodes| && NIL <= nodes[h].next < |nodes|
  {
    RefreshFrame(nodes, order, head, tail, j);
  }

  /** The pointer splicing of `Lru.refresh`, on values: a head node stays; any other
      node `h` (at position `j`) is unlinked, the tail becomes its predecessor if it
      was the tail, and it is pushed in front. */
  method Relink(nodes: seq<LruNode>, head: int, tail: int, h: nat, ghost order: seq<nat>, ghost j: nat,
                ghost size: nat, ghost capacity: nat) returns (r: seq<LruNode>, newTail: int, ghost order': seq<nat>)
    requires ListSound(nodes, order, head, tail, size, capacity) && j < |order| && order[j] == h
    ensures order' == MoveToFront(order, j)
    ensures ListSound(r, order', h, newTail, size, capacity) && OnlyLinksChanged(nodes, r, order)
  {
    order' := MoveToFront(order, j);
    if h == head {
      assert j == 0;
      assert order' == order;
      return nodes, tail, order';
    }
    RefreshBounds(nodes, order, head, tail, size, capacity, j, h);
    var prev := nodes[h].prev;
    newTail := if h == tail then prev else tail;
    r := PushFront(Detach(nodes, h), head, h);
    RefreshSound(nodes, order, head, tail, size, capacity, j, h, r, order', newTail);
  }

  /** The recency list: head is the most recently used node, tail the least. */
  class Lru {
    var head: int
    var tail: int
    var size: nat
    const capacity: nat
    /** The listed slots from head to tail. */
    ghost var order: seq<nat>

    /** The state of a new or purged list. */
    ghost predicate Empty()
      reads this
    {
      head == NIL && tail == NIL && size == 0 && order == []
    }

    ghost predicate Valid(nodes: seq<LruNode>)
      reads this
    {
      ListSound(nodes, order, head, tail, size, capacity)
    }

    constructor(capacity: nat)
      requires 1 <= capacity
      ensures this.capacity == capacity && Empty()
    {
      this.capacity := capacity;
      head, tail, size := NIL, NIL, 0;
      order := [];
    }

    /** `Lru.put`: link `h` in front; once the list was full, cut off the old tail and
        return it (else `NIL`). Only links of listed nodes and `h` change. */
    method Put(arena: NodeArena, h: nat) returns (evicted: int)
      requires Valid(arena.nodes) && h < |arena.nodes| && h !in order
      modifies this, arena`nodes
      ensures Valid(arena.nodes) && OnlyLinksChanged(old(arena.nodes), arena.nodes, [h] + old(order))
      ensures old(size) < capacity ==> evicted == NIL && order == [h] + old(order)
      ensures old(size) == capacity ==>
        && old(order) != [] && evicted == old(order)[|old(order)| - 1]
        && order == [h] + old(order)[..|old(order)| - 1]
    {
      ghost var nodes0, order0, tail0 := arena.nodes, order, tail;
      ghost var o1 := [h] + order0;
      PushFrontLinked(nodes0, order0, head, tail0, h);
      var n1 := PushFront(arena.nodes, head, h);
      head := h;
      if tail == NIL {
        tail := h;
      }
      if size < capacity {
        size := size + 1;
        order := o1;
        arena.nodes := n1;
        assert arena.nodes == n1 && order == o1 && head == h && tail == (if tail0 == NIL then h else tail0);
        return NIL;
      }
      var currentTail := tail;
      assert currentTail == tail0 == order0[|order0| - 1];
      CutTailLinked(n1, o1, h, tail0);
      var newTail := n1[currentTail].prev;
      var n2 := CutTail(n1, newTail, currentTail);
      OnlyLinksChangedTrans(nodes0, n1, n2, o1);
      ghost var o2 := o1[..|o1| - 1];
      assert o2 == [h] + order0[..|order0| - 1];
      assert Linked(n2, o2, h, newTail) && |o2| == |order0|;
      tail := newTail;
      order := o2;
      arena.nodes := n2;
      evicted := currentTail;
      assert arena.nodes == n2 && order == o2 && head == h && tail == newTail;
    }

    /** `Lru.refresh` of the node at position `j`: it becomes the head and the others
        keep their order; at the head already, nothing changes. */
    method Refresh(arena: NodeArena, h: nat, ghost j: nat)
      requires Valid(arena.nodes) && j < |order| && order[j] == h
      modifies this, arena`nodes
      ensures Valid(arena.nodes) && OnlyLinksChanged(old(arena.nodes), arena.nodes, old(order))
      ensures order == MoveToFront(old(order), j) && size == old(size)
    {
      ghost var o2;
      var n2, newTail;
      n2, newTail, o2 := Relink(arena.nodes, head, tail, h, order, j, size, capacity);
      arena.nodes := n2;
      head, tail := h, newTail;
      order := o2;
    }

    /** `Lru.purge`: forget the whole list. */
    method Purge(ghost nodes: seq<LruNode>)
      modifies this
      ensures Empty() && (1 <= capacity ==> Valid(nodes))
    {
      head, tail, size := NIL, NIL, 0;
      order := [];
    }
  }

  /** `new Lru(capacity)`, which throws below 1. */
  method NewLru(capacity: int) returns (r: Result<Lru, string>)
    ensures capacity < 1 <==> r.Err?
    ensures r.Err? ==> r.error == "capacity must bigger than 1"
    ensures r.Ok? ==> fresh(r.value) && r.value.capacity == capacity && r.value.Empty()
  {
    if capacity < 1 {
      return Err("capacity must bigger than 1");
    }
    var lru := new Lru(capacity);
    return Ok(lru);
  }

  /** Every listed slot is a node of the arena. */
  ghost predicate InArena(nodes: seq<LruNode>, order: seq<nat>) {
    forall i :: 0 <= i < |order| ==> order[i] < |nodes|
  }

  /** The view of a cache whose arena, list, index and capacity are these values. */
  ghost function ViewOf(nodes: seq<LruNode>, order: seq<nat>, index: map<string, nat>, capacity: nat): CacheView
    requires InArena(nodes, order)
  {
    CacheView(EntriesOf(nodes, order), index, capacity)
  }

  /** Where the refreshed node of a hit sits, and what it holds. */
  lemma IndexedSlot(nodes: seq<LruNode>, order: seq<nat>, index: map<string, nat>, capacity: nat, k: string)
    requires InArena(nodes, order) && WellFormed(ViewOf(nodes, order, index, capacity)) && k in index
    ensures var j := Located(ViewOf(nodes, order, index, capacity), k);
      && 0 <= j < |order| && order[j] == index[k] && index[k] < |nodes|
      && nodes[index[k]].key == k && nodes[index[k]].value != null
      && Lookup(ViewOf(nodes, order, index, capacity), k) == Some(nodes[index[k]].value)
  {
    LocatedIndexed(ViewOf(nodes, order, index, capacity), k);
  }

  /** The whole representation invariant of `LruContentCache`, on values: the pool
      and the list are sound, no pooled node is listed, and the view is well formed. */
  ghost predicate CacheSound(nodes: seq<LruNode>, pool: seq<nat>, order: seq<nat>, head: int, tail: int,
                             size: nat, capacity: nat, index: map<string, nat>) {
    && PoolSound(nodes, pool) && ListSound(nodes, order, head, tail, size, capacity)
    && (forall i, j :: 0 <= i < |pool| && 0 <= j < |order| ==> pool[i] != order[j])
    && WellFormed(ViewOf(nodes, order, index, capacity))
  }

  /** After the refresh of a hit (only links of listed nodes changed, the list moved
      the hit to the front) the view is the touched one and pooled nodes are intact. */
  lemma RefreshedView(nodes: seq<LruNode>, nodes': seq<LruNode>, order: seq<nat>, pool: seq<nat>,
                      index: map<string, nat>, capacity: nat, k: string)
    requires InArena(nodes, order) && WellFormed(ViewOf(nodes, order, index, capacity)) && k in index
    requires OnlyLinksChanged(nodes, nodes', order)
    requires forall i, j :: 0 <= i < |pool| && 0 <= j < |order| ==> pool[i] != order[j]
    ensures var v := ViewOf(nodes, order, index, capacity);
      var j := Located(v, k);
      && 0 <= j < |order| && InArena(nodes', MoveToFront(order, j))
      && ViewOf(nodes', MoveToFront(order, j), index, capacity) == Touch(v, k)
      && WellFormed(Touch(v, k)) && (Coherent(v) ==> Coherent(Touch(v, k)))
      && (forall i, j' :: 0 <= i < |pool| && 0 <= j' < |order| ==> pool[i] != MoveToFront(order, j)[j'])
      && (forall i :: 0 <= i < |pool| && pool[i] < |nodes| ==> nodes'[pool[i]] == nodes[pool[i]])
  {
    var v := ViewOf(nodes, order, index, capacity);
    LocatedIndexed(v, k);
    var j := Located(v, k);
    EntriesMove(nodes, order, j);
    EntriesFrame(nodes, nodes', MoveToFront(order, j)) by {
      forall i | 0 <= i < |order| ensures SamePayload(nodes, nodes', MoveToFront(order, j)[i]) {
        MoveToFrontAt(order, j, i);
      }
    }
    TouchPreserves(v, k);
    forall i, j' | 0 <= i < |pool| && 0 <= j' < |order| ensures pool[i] != MoveToFront(order, j)[j'] {
      MoveToFrontAt(order, j, j');
    }
    forall i | 0 <= i < |pool| && pool[i] < |nodes| ensures nodes'[pool[i]] == nodes[pool[i]] {
      assert pool[i] !in order;
    }
  }

  /** The hit path keeps the representation sound and touches the view. */
  lemma HitSound(nodes0: seq<LruNode>, pool: seq<nat>, order0: seq<nat>, head0: int, tail0: int,
                 size: nat, capacity: nat, index: map<string, nat>, k: string, j: nat,
                 nodes1: seq<LruNode>, order1: seq<nat>, head1: int, tail1: int)
    requires CacheSound(nodes0, pool, order0, head0, tail0, size, capacity, index) && k in index
    requires j == Located(ViewOf(nodes0, order0, index, capacity), k) && j < |order0|
    requires ListSound(nodes1, order1, head1, tail1, size, capacity)
    requires OnlyLinksChanged(nodes0, nodes1, order0) && order1 == MoveToFront(order0, j)
    ensures CacheSound(nodes1, pool, order1, head1, tail1, size, capacity, index)
    ensures ViewOf(nodes1, order1, index, capacity) == Touch(ViewOf(nodes0, order0, index, capacity), k)
    ensures Coherent(ViewOf(nodes0, order0, index, capacity)) ==> Coherent(ViewOf(nodes1, order1, index, capacity))
  {
    RefreshedView(nodes0, nodes1, order0, pool, index, capacity, k);
  }

  /** A new node `h` with hash `k` and buffer `d`, linked in front of the list, adds
      that entry in front of the view's entries. */
  lemma LinkedNew(nodes1: seq<LruNode>, order0: seq<nat>, k: string, d: array<byte>, h: nat, nodes2: seq<LruNode>)
    requires InArena(nodes1, order0) && (forall i :: 0 <= i < |order0| ==> order0[i] != h)
    requires h < |nodes1| && nodes1[h] == LruNode(NIL, NIL, k, d)
    requires OnlyLinksChanged(nodes1, nodes2, [h] + order0)
    ensures InArena(nodes2, [h] + order0)
    ensures EntriesOf(nodes2, [h] + order0) == [Entry(h, k, d)] + EntriesOf(nodes1, order0)
  {
    var o := [h] + order0;
    forall i | 0 <= i < |o| ensures o[i] < |nodes2| && SamePayload(nodes1, nodes2, o[i]) {
      assert SamePayload(nodes1, nodes2, o[i]);
    }
    EntriesFrame(nodes1, nodes2, o);
    EntriesCons(nodes1, h, order0);
  }

  /** Clearing the evicted tail node after cutting it off leaves the other entries. */
  lemma EvictedView(nodes2: seq<LruNode>, o1: seq<nat>)
    requires InArena(nodes2, o1) && |o1| >= 2
    requires forall i, j :: 0 <= i < j < |o1| ==> o1[i] != o1[j]
    ensures InArena(nodes2[o1[|o1| - 1] := CLEARED], o1[..|o1| - 1])
    ensures EntriesOf(nodes2[o1[|o1| - 1] := CLEARED], o1[..|o1| - 1]) == EntriesOf(nodes2, o1)[..|o1| - 1]
    ensures nodes2[o1[|o1| - 1]].key == EntriesOf(nodes2, o1)[|o1| - 1].key
  {
    var t := o1[|o1| - 1];
    var o := o1[..|o1| - 1];
    EntriesTake(nodes2, o1, |o1| - 1);
    EntriesFrame(nodes2, nodes2[t := CLEARED], o) by {
      forall i | 0 <= i < |o| ensures o[i] != t { assert o[i] == o1[i]; }
    }
  }

  /** The state right after `alloc` handed out slot `h` for hash `k`: sound as
      before, and `h` holds an unlinked node for `k` that is neither listed nor pooled. */
  ghost predicate AllocatedSound(nodes: seq<LruNode>, pool: seq<nat>, order: seq<nat>, head: int, tail: int,
                                 size: nat, capacity: nat, index: map<string, nat>, h: nat, k: string, d: array<byte>) {
    && CacheSound(nodes, pool, order, head, tail, size, capacity, index) && k !in index
    && h < |nodes| && nodes[h] == LruNode(NIL, NIL, k, d)
    && (forall i :: 0 <= i < |order| ==> order[i] != h)
    && (forall i :: 0 <= i < |pool| ==> pool[i] != h)
  }

  /** `alloc` hands out a slot that is not listed and sets up its node there; the
      view does not change. */
  lemma AllocSound(nodes0: seq<LruNode>, pool0: seq<nat>, order0: seq<nat>, head0: int, tail0: int,
                   size0: nat, capacity: nat, index: map<string, nat>, k: string, d: array<byte>,
                   nodes1: seq<LruNode>, pool1: seq<nat>)
    requires CacheSound(nodes0, pool0, order0, head0, tail0, size0, capacity, index) && k !in index
    requires pool0 == [] ==> pool1 == [] && nodes1 == nodes0 + [LruNode(NIL, NIL, k, d)]
    requires pool0 != [] ==> pool1 == pool0[..|pool0| - 1] && nodes1 == nodes0[NextSlotOf(nodes0, pool0) := LruNode(NIL, NIL, k, d)]
    ensures AllocatedSound(nodes1, pool1, order0, head0, tail0, size0, capacity, index, NextSlotOf(nodes0, pool0), k, d)
    ensures ViewOf(nodes1, order0, index, capacity) == ViewOf(nodes0, order0, index, capacity)
  {
    var h := NextSlotOf(nodes0, pool0);
    if pool0 != [] {
      assert h == pool0[|pool0| - 1];
      forall i | 0 <= i < |pool1| ensures pool1[i] != h && pool1[i] == pool0[i] { assert pool1[i] == pool0[i]; }
    }
    assert forall i :: 0 <= i < |order0| ==> order0[i] != h;
    assert forall i :: 0 <= i < |nodes0| && i != h ==> nodes1[i] == nodes0[i];
    EntriesFrame(nodes0, nodes1, order0);
    assert Linked(nodes1, order0, head0, tail0);
  }

  /** Linking the allocated node into a list that is not full, and indexing it. */
  lemma LinkSound(nodes1: seq<LruNode>, pool1: seq<nat>, order0: seq<nat>, head0: int, tail0: int,
                  size0: nat, capacity: nat, index: map<string, nat>, h: nat, k: string, d: array<byte>,
                  nodes2: seq<LruNode>, order2: seq<nat>, head2: int, tail2: int, size2: nat)
    requires AllocatedSound(nodes1, pool1, order0, head0, tail0, size0, capacity, index, h, k, d)
    requires ListSound(nodes2, order2, head2, tail2, size2, capacity)
    requires OnlyLinksChanged(nodes1, nodes2, [h] + order0)
    requires size0 < capacity && order2 == [h] + order0
    ensures CacheSound(nodes2, pool1, order2, head2, tail2, size2, capacity, index[k := h])
    ensures var v := ViewOf(nodes1, order0, index, capacity);
      && ViewOf(nodes2, order2, index[k := h], capacity) == Put(v, k, d, h)
      && (Coherent(v) ==> Coherent(Put(v, k, d, h)))
  {
    var v := ViewOf(nodes1, order0, index, capacity);
    LinkedNew(nodes1, order0, k, d, h, nodes2);
    assert FreeSlot(v, h);
    PutPreserves(v, k, d, h);
    forall i | 0 <= i < |pool1| ensures nodes2[pool1[i]] == CLEARED {
      assert pool1[i] !in [h] + order0;
    }
    forall i, j | 0 <= i < |pool1| && 0 <= j < |order2| ensures pool1[i] != order2[j] {
      if j > 0 { assert order2[j] == order0[j - 1]; }
    }
  }

  /** The pool side of an eviction: the evicted tail was listed, so it is not pooled,
      and pushing it, cleared, keeps the pool sound and apart from the new list. */
  lemma EvictPool(nodes1: seq<LruNode>, pool1: seq<nat>, order0: seq<nat>, h: nat, nodes2: seq<LruNode>,
                  order2: seq<nat>, evicted: nat)
    requires PoolSound(nodes1, pool1) && InArena(nodes1, order0)
    requires forall i, j :: 0 <= i < |pool1| && 0 <= j < |order0| ==> pool1[i] != order0[j]
    requires forall i :: 0 <= i < |pool1| ==> pool1[i] != h
    requires OnlyLinksChanged(nodes1, nodes2, [h] + order0)
    requires order0 != [] && evicted == order0[|order0| - 1] && order2 == [h] + order0[..|order0| - 1]
    requires forall j :: 0 <= j < |order2| ==> order2[j] != evicted
    ensures evicted < |nodes2| && evicted !in pool1 && PoolSound(nodes2, pool1)
    ensures PoolSound(nodes2[evicted := CLEARED], pool1 + [evicted])
    ensures forall i, j :: 0 <= i < |pool1 + [evicted]| && 0 <= j < |order2| ==> (pool1 + [evicted])[i] != order2[j]
  {
    var o1 := [h] + order0;
    var pool3 := pool1 + [evicted];
    forall i | 0 <= i < |pool1| ensures pool1[i] != evicted && nodes2[pool1[i]] == CLEARED {
      assert pool1[i] !in o1;
    }
    forall i, j | 0 <= i < |pool3| && 0 <= j < |order2| ensures pool3[i] != order2[j] {
      if i < |pool1| {
        assert pool3[i] == pool1[i];
        if j > 0 { assert order2[j] == order0[j - 1]; }
      }
    }
  }

  /** Clearing a node that is not listed keeps the list sound. */
  lemma ClearedListSound(nodes: seq<LruNode>, order: seq<nat>, head: int, tail: int, size: nat, capacity: nat, t: nat)
    requires ListSound(nodes, order, head, tail, size, capacity) && t < |nodes|
    requires forall i :: 0 <= i < |order| ==> order[i] != t
    ensures ListSound(nodes[t := CLEARED], order, head, tail, size, capacity)
  {
    var nodes' := nodes[t := CLEARED];
    assert forall i :: 0 <= i < |order| ==> nodes'[order[i]] == nodes[order[i]];
  }

  /** The view side of an eviction: the cut-off tail held the least recently used
      hash, and clearing it leaves exactly the entries `Put` keeps. */
  lemma EvictView(nodes1: seq<LruNode>, order0: seq<nat>, capacity: nat, index: map<string, nat>, h: nat,
                  k: string, d: array<byte>, nodes2: seq<LruNode>, order2: seq<nat>, evicted: nat)
    requires InArena(nodes1, order0) && WellFormed(ViewOf(nodes1, order0, index, capacity)) && k !in index
    requires forall i, j :: 0 <= i < j < |order0| ==> order0[i] != order0[j]
    requires forall i :: 0 <= i < |order0| ==> order0[i] != h
    requires h < |nodes1| && nodes1[h] == LruNode(NIL, NIL, k, d)
    requires OnlyLinksChanged(nodes1, nodes2, [h] + order0)
    requires |order0| == capacity && order0 != [] && evicted == order0[|order0| - 1]
    requires order2 == [h] + order0[..|order0| - 1]
    ensures evicted < |nodes2| && InArena(nodes2[evicted := CLEARED], order2)
    ensures forall j :: 0 <= j < |order2| ==> order2[j] != evicted
    ensures var v := ViewOf(nodes1, order0, index, capacity);
      && nodes2[evicted].key == v.entries[|v.entries| - 1].key
      && ViewOf(nodes2[evicted := CLEARED], order2, (index - {nodes2[evicted].key})[k := h], capacity) == Put(v, k, d, h)
  {
    var v := ViewOf(nodes1, order0, index, capacity);
    var o1 := [h] + order0;
    LinkedNew(nodes1, order0, k, d, h, nodes2);
    assert o1[|o1| - 1] == evicted && o1[..|o1| - 1] == order2;
    assert forall i, j :: 0 <= i < j < |o1| ==> o1[i] != o1[j] by {
      forall i, j | 0 <= i < j < |o1| ensures o1[i] != o1[j] {
        if i > 0 { assert o1[i] == order0[i - 1] && o1[j] == order0[j - 1]; }
      }
    }
    EvictedView(nodes2, o1);
    assert EntriesOf(nodes2, o1)[|o1| - 1] == v.entries[|v.entries| - 1];
    assert ([Entry(h, k, d)] + v.entries)[..capacity] == EntriesOf(nodes2, o1)[..|o1| - 1];
    forall j | 0 <= j < |order2| ensures order2[j] != evicted {
      assert order2[j] == o1[j];
    }
  }

  /** Linking the allocated node into a full list cuts off its tail: the tail node
      is cleared and pooled, its hash unindexed, and the new hash indexed. */
  lemma LinkEvictSound(nodes1: seq<LruNode>, pool1: seq<nat>, order0: seq<nat>, head0: int, tail0: int,
                       size0: nat, capacity: nat, index: map<string, nat>, h: nat, k: string, d: array<byte>,
                       nodes2: seq<LruNode>, order2: seq<nat>, head2: int, tail2: int, size2: nat, evicted: nat)
    requires AllocatedSound(nodes1, pool1, order0, head0, tail0, size0, capacity, index, h, k, d)
    requires ListSound(nodes2, order2, head2, tail2, size2, capacity)
    requires OnlyLinksChanged(nodes1, nodes2, [h] + order0)
    requires size0 == capacity && order0 != [] && evicted == order0[|order0| - 1]
    requires order2 == [h] + order0[..|order0| - 1]
    ensures evicted < |nodes2| && evicted !in pool1 && PoolSound(nodes2, pool1)
    ensures var v := ViewOf(nodes1, order0, index, capacity);
      && nodes2[evicted].key == v.entries[|v.entries| - 1].key
      && CacheSound(nodes2[evicted := CLEARED], pool1 + [evicted], order2, head2, tail2, size2, capacity,
                    (index - {nodes2[evicted].key})[k := h])
      && ViewOf(nodes2[evicted := CLEARED], order2, (index - {nodes2[evicted].key})[k := h], capacity) == Put(v, k, d, h)
      && (Coherent(v) ==> Coherent(Put(v, k, d, h)))
  {
    var v := ViewOf(nodes1, order0, index, capacity);
    EvictView(nodes1, order0, capacity, index, h, k, d, nodes2, order2, evicted);
    EvictPool(nodes1, pool1, order0, h, nodes2, order2, evicted);
    ClearedListSound(nodes2, order2, head2, tail2, size2, capacity, evicted);
    assert FreeSlot(v, h);
    PutPreserves(v, k, d, h);
  }

  /** The content cache: the recency list plus the index from hash to node. */
  class LruContentCache {
    var hashing: map<string, nat>
    const lru: Lru
    const arena: NodeArena

    /** What a caller can observe: entries from most to least recently used. */
    ghost function View(): CacheView
      reads this, lru, arena
      requires InArena(arena.nodes, lru.order)
    {
      ViewOf(arena.nodes, lru.order, hashing, lru.capacity)
    }

    /** The arena and the list are sound, no pooled node is listed, and the view is
        well formed (coherent too, unless the cache was purged). */
    ghost predicate Valid()
      reads this, lru, arena
    {
      CacheSound(arena.nodes, arena.pool, lru.order, lru.head, lru.tail, lru.size, lru.capacity, hashing)
    }

    constructor(lru: Lru)
      requires lru.Empty() && 1 <= lru.capacity
      ensures Valid() && View() == Empty(lru.capacity) && this.lru == lru && fresh(arena)
    {
      hashing := map[];
      this.lru := lru;
      arena := new NodeArena();
    }

    /** `putCache`: a cached hash is only refreshed (its buffer is kept); a new one is
        stored -- as a fresh copy when `needCopy`, else the caller's own buffer -- in
        the node `alloc` hands out, evicting the least recently used when full. */
    method PutCache(hash: string, data: array<byte>, needCopy: bool) returns (ghost stored: array<byte>)
      requires Valid()
      modifies this, lru, arena
      ensures Valid() && (old(Coherent(View())) ==> Coherent(View()))
      ensures old(hash in hashing) ==> View() == Touch(old(View()), hash)
      ensures old(hash !in hashing) ==> View() == Put(old(View()), hash, stored, old(arena.NextSlot()))
      ensures old(hash !in hashing) && needCopy ==> fresh(stored) && stored[..] == data[..]
      ensures !needCopy ==> stored == data
    {
      stored := data;
      if hash in hashing {
        Hit(hash);
        return;
      }
      var d := data;
      if needCopy {
        d := CopyContent(data);
      }
      stored := d;
      Insert(hash, d);
    }

    /** The hit path shared by `putCache` and `getCache`: refresh the hash's node. */
    method Hit(hash: string)
      requires Valid() && hash in hashing
      modifies lru, arena`nodes
      ensures Valid() && (old(Coherent(View())) ==> Coherent(View()))
      ensures View() == Touch(old(View()), hash)
    {
      ghost var v := View();
      ghost var nodes0, order0, head0, tail0 := arena.nodes, lru.order, lru.head, lru.tail;
      IndexedSlot(nodes0, order0, hashing, lru.capacity, hash);
      ghost var j := Located(v, hash);
      lru.Refresh(arena, hashing[hash], j);
      HitSound(nodes0, arena.pool, order0, head0, tail0, lru.size, lru.capacity, hashing, hash, j,
               arena.nodes, lru.order, lru.head, lru.tail);
    }

    /** The miss path of `putCache`: allocate a node for `d`, then link it. */
    method Insert(hash: string, d: array<byte>)
      requires Valid() && hash !in hashing
      modifies this, lru, arena
      ensures Valid() && (old(Coherent(View())) ==> Coherent(View()))
      ensures View() == Put(old(View()), hash, d, old(arena.NextSlot()))
    {
      ghost var nodes0, pool0 := arena.nodes, arena.pool;
      var h := arena.Alloc(hash, d);
      AllocSound(nodes0, pool0, lru.order, lru.head, lru.tail, lru.size, lru.capacity, hashing, hash, d,
                 arena.nodes, arena.pool);
      Link(hash, d, h);
    }

    /** Slot `h` was just allocated for `hash` and `d`. */
    ghost predicate Allocated(hash: string, d: array<byte>, h: nat)
      reads this, lru, arena
    {
      AllocatedSound(arena.nodes, arena.pool, lru.order, lru.head, lru.tail, lru.size, lru.capacity, hashing, h, hash, d)
    }

    /** Link the allocated node in front, free the evicted tail, if any, unindexing
        its hash, and index the new node. */
    method Link(hash: string, d: array<byte>, h: nat)
      requires Allocated(hash, d, h)
      modifies this, lru, arena
      ensures Valid() && (old(Coherent(View())) ==> Coherent(View()))
      ensures View() == Put(old(View()), hash, d, h)
    {
      ghost var nodes1, pool1, order0, head0, tail0, size0 := arena.nodes, arena.pool, lru.order, lru.head, lru.tail, lru.size;
      ghost var index0 := hashing;
      assert h !in order0;
      var evicted := lru.Put(arena, h);
      ghost var nodes2, order2, head2, tail2, size2 := arena.nodes, lru.order, lru.head, lru.tail, lru.size;
      if evicted == NIL {
        LinkSound(nodes1, pool1, order0, head0, tail0, size0, lru.capacity, index0, h, hash, d,
                  nodes2, order2, head2, tail2, size2);
        hashing := hashing[hash := h];
        assert arena.nodes == nodes2 && arena.pool == pool1 && hashing == index0[hash := h];
        assert lru.order == order2 && lru.head == head2 && lru.tail == tail2 && lru.size == size2;
        return;
      }
      LinkEvictSound(nodes1, pool1, order0, head0, tail0, size0, lru.capacity, index0, h, hash, d,
                     nodes2, order2, head2, tail2, size2, evicted);
      ghost var index1 := (index0 - {nodes2[evicted].key})[hash := h];
      hashing := hashing - {arena.nodes[evicted].key};
      arena.Free(evicted);
      hashing := hashing[hash := h];
      assert arena.nodes == nodes2[evicted := CLEARED] && arena.pool == pool1 + [evicted] && hashing == index1;
      assert lru.order == order2 && lru.head == head2 && lru.tail == tail2 && lru.size == size2;
    }

    /** `getCache`: the buffer stored under `hash`, which becomes the most recently
        used entry; a miss changes nothing. */
    method GetCache(hash: string) returns (r: Option<array<byte>>)
      requires Valid()
      modifies lru, arena`nodes
      ensures Valid() && (old(Coherent(View())) ==> Coherent(View()))
      ensures r == Lookup(old(View()), hash)
      ensures View() == Touch(old(View()), hash)
      ensures r.None? ==> unchanged(lru, arena)
    {
      if hash in hashing {
        var h := hashing[hash];
        IndexedSlot(arena.nodes, lru.order, hashing, lru.capacity, hash);
        var value := arena.nodes[h].value;
        Hit(hash);
        return Some(value);
      }
      return None;
    }

    /** `purge` as written: it clears the index and nothing else. */
    method Purge()
      requires Valid()
      modifies this
      ensures Valid() && View() == LruSpec.Purge(old(View()))
    {
      hashing := map[];
    }

    /** A purge that also purges the list, leaving an empty, coherent cache. */
    method PurgeAll()
      requires Valid()
      modifies this, lru
      ensures Valid() && View() == Cleared(old(View())) && Coherent(View())
    {
      hashing := map[];
      lru.Purge(arena.nodes);
    }
  }

  /** `new LruContentCache(capacity)`, which throws below 1. */
  method NewLruContentCache(capacity: int) returns (r: Result<LruContentCache, string>)
    ensures capacity < 1 <==> r.Err?
    ensures r.Err? ==> r.error == "capacity must bigger than 1"
    ensures r.Ok? ==> fresh(r.value) && r.value.Valid() && r.value.View() == Empty(capacity)
  {
    var lru := NewLru(capacity);
    if lru.Err? {
      return Err(lru.error);
    }
    var cache := new LruContentCache(lru.value);
    return Ok(cache);
  }
}
