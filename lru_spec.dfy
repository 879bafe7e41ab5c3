/**
 * The recency list of the content cache, abstractly.
 *
 * Two layers live here. `Linked` ties the prev/next links of the node arena to a
 * sequence of slots from head to tail, with one lemma per list surgery the cache
 * performs (link at head, unlink from the middle, drop the tail). `CacheView` is what
 * a caller can observe of the cache: the entries from most to least recently used,
 * the hash-to-slot index and the capacity; `Put`, `Touch`, `Lookup` and `Purge` give
 * the effect of each operation on it, and the lemmas below state the LRU policy.
 */
module LruSpec {
  import opened Wrappers
  import opened Bytes

  /** The null slot: `null` in a node's prev/next and in the list's head/tail. */
  const NIL: int := -1

  /** A node of the recency list, addressed by its slot in the node arena. */
  datatype LruNode = LruNode(prev: int, next: int, key: string, value: array?<byte>)

  /** What a freed node holds while it waits in the pool. */
  const CLEARED: LruNode := LruNode(NIL, NIL, "", null)

  /** The slot before position `i` of `order`, or null at the head. */
  function PrevOf(order: seq<nat>, i: nat): int
    requires i < |order|
  {
    if i == 0 then NIL else order[i - 1]
  }

  /** The slot after position `i` of `order`, or null at the tail. */
  function NextOf(order: seq<nat>, i: nat): int
    requires i < |order|
  {
    if i == |order| - 1 then NIL else order[i + 1]
  }

  /** `order` lists the slots of the recency list from head to tail, and every
      listed node's prev/next links name its neighbours in `order`. */
  ghost predicate Linked(nodes: seq<LruNode>, order: seq<nat>, head: int, tail: int) {
    && (forall i :: 0 <= i < |order| ==> order[i] < |nodes|)
    && (forall i, j :: 0 <= i < j < |order| ==> order[i] != order[j])
    && head == (if order == [] then NIL else order[0])
    && tail == (if order == [] then NIL else order[|order| - 1])
    && (forall i :: 0 <= i < |order| ==> nodes[order[i]].prev == PrevOf(order, i))
    && (forall i :: 0 <= i < |order| ==> nodes[order[i]].next == NextOf(order, i))
  }

  /** Node `i` has the same links in `nodes` and `nodes'`. */
  ghost predicate SameLinks(nodes: seq<LruNode>, nodes': seq<LruNode>, i: nat)
    requires i < |nodes| && i < |nodes'|
  {
    nodes'[i].prev == nodes[i].prev && nodes'[i].next == nodes[i].next
  }

  /** Linking a node that is not on the list in front of the head (`Lru.put`, and the
      second half of `Lru.refresh`) makes it the new head of the same list. */
  lemma LinkFront(nodes: seq<LruNode>, nodes': seq<LruNode>, order: seq<nat>, head: int, tail: int, h: nat)
    requires Linked(nodes, order, head, tail)
    requires h < |nodes| == |nodes'| && h !in order
    requires nodes'[h].prev == NIL && nodes'[h].next == head
    requires head != NIL ==> nodes'[head].prev == h && nodes'[head].next == nodes[head].next
    requires forall i :: 0 <= i < |nodes| && i != h && i != head ==> SameLinks(nodes, nodes', i)
    ensures Linked(nodes', [h] + order, h, if tail == NIL then h else tail)
  {
    var o := [h] + order;
    forall i | 0 <= i < |o|
      ensures nodes'[o[i]].prev == PrevOf(o, i)
      ensures nodes'[o[i]].next == NextOf(o, i)
    {
      if i == 0 {
        assert order != [] ==> o[1] == order[0] == head;
      } else if i == 1 {
        assert o[1] == order[0] == head;
        assert |order| > 1 ==> o[2] == order[1];
      } else {
        assert o[i] == order[i - 1] != order[0] == head;
        assert o[i] != h;
        assert o[i - 1] == order[i - 2];
        assert i < |o| - 1 ==> o[i + 1] == order[i];
        assert SameLinks(nodes, nodes', o[i]);
      }
    }
  }

  /** Cutting the tail off a list of two or more nodes (the eviction in `Lru.put`)
      leaves the rest linked, with the old tail's predecessor as the new tail. */
  lemma DropTail(nodes: seq<LruNode>, nodes': seq<LruNode>, order: seq<nat>, head: int, tail: int)
    requires Linked(nodes, order, head, tail) && |order| >= 2
    requires |nodes'| == |nodes|
    requires nodes'[order[|order| - 2]].next == NIL
    requires nodes'[order[|order| - 2]].prev == nodes[order[|order| - 2]].prev
    requires forall i :: 0 <= i < |nodes| && i != order[|order| - 2] && i != tail ==> SameLinks(nodes, nodes', i)
    ensures Linked(nodes', order[..|order| - 1], head, order[|order| - 2])
  {
    var o := order[..|order| - 1];
    forall i | 0 <= i < |o|
      ensures nodes'[o[i]].prev == PrevOf(o, i)
      ensures nodes'[o[i]].next == NextOf(o, i)
    {
      assert o[i] == order[i];
      assert i > 0 ==> o[i - 1] == order[i - 1];
      if i < |o| - 1 {
        assert o[i + 1] == order[i + 1];
        assert order[i] != order[|order| - 2] && order[i] != order[|order| - 1];
        assert SameLinks(nodes, nodes', o[i]);
      }
    }
  }

  /** Unlinking the node at position `j > 0` (the first half of `Lru.refresh`) joins
      its neighbours and leaves every other node in its place; when it was the tail,
      its predecessor becomes the tail. */
  lemma Unlink(nodes: seq<LruNode>, nodes': seq<LruNode>, order: seq<nat>, head: int, tail: int, j: nat)
    requires Linked(nodes, order, head, tail) && 0 < j < |order|
    requires |nodes'| == |nodes|
    requires nodes'[order[j - 1]].next == (if j == |order| - 1 then NIL else order[j + 1])
    requires nodes'[order[j - 1]].prev == nodes[order[j - 1]].prev
    requires j < |order| - 1 ==> nodes'[order[j + 1]].prev == order[j - 1] && nodes'[order[j + 1]].next == nodes[order[j + 1]].next
    requires forall i :: 0 <= i < |nodes| && i != order[j - 1] && i != order[j] && (j == |order| - 1 || i != order[j + 1]) ==> SameLinks(nodes, nodes', i)
    ensures Linked(nodes', order[..j] + order[j + 1..], head, if j == |order| - 1 then order[j - 1] else tail)
  {
    var o := order[..j] + order[j + 1..];
    RemoveDistinct(order, j, o, |nodes|);
    RemoveAt(order, j, 0);
    RemoveAt(order, j, |o| - 1);
    forall i | 0 <= i < |o|
      ensures nodes'[o[i]].prev == PrevOf(o, i)
      ensures nodes'[o[i]].next == NextOf(o, i)
    {
      UnlinkAt(nodes, nodes', order, head, tail, j, i);
    }
  }

  /** The links of the node at position `i` after `Unlink`. */
  lemma UnlinkAt(nodes: seq<LruNode>, nodes': seq<LruNode>, order: seq<nat>, head: int, tail: int, j: nat, i: nat)
    requires Linked(nodes, order, head, tail) && 0 < j < |order| && i < |order| - 1
    requires |nodes'| == |nodes|
    requires nodes'[order[j - 1]].next == (if j == |order| - 1 then NIL else order[j + 1])
    requires nodes'[order[j - 1]].prev == nodes[order[j - 1]].prev
    requires j < |order| - 1 ==> nodes'[order[j + 1]].prev == order[j - 1] && nodes'[order[j + 1]].next == nodes[order[j + 1]].next
    requires forall i :: 0 <= i < |nodes| && i != order[j - 1] && i != order[j] && (j == |order| - 1 || i != order[j + 1]) ==> SameLinks(nodes, nodes', i)
    ensures var o := order[..j] + order[j + 1..];
      nodes'[o[i]].prev == PrevOf(o, i) && nodes'[o[i]].next == NextOf(o, i)
  {
    var o := order[..j] + order[j + 1..];
    RemoveAt(order, j, i);
    if i > 0 { RemoveAt(order, j, i - 1); }
    if i < |o| - 1 { RemoveAt(order, j, i + 1); }
    if i < j - 1 || i > j {
      var src := if i < j then i else i + 1;
      assert order[src] != order[j - 1] && order[src] != order[j];
      assert j < |order| - 1 ==> order[src] != order[j + 1];
      assert SameLinks(nodes, nodes', o[i]);
    }
  }

  /** Removing one element keeps the elements in range and distinct. */
  lemma RemoveDistinct(order: seq<nat>, j: nat, o: seq<nat>, bound: nat)
    requires j < |order| && o == order[..j] + order[j + 1..]
    requires forall i :: 0 <= i < |order| ==> order[i] < bound
    requires forall i, k :: 0 <= i < k < |order| ==> order[i] != order[k]
    ensures forall i, k :: 0 <= i < k < |o| ==> o[i] != o[k]
    ensures forall i :: 0 <= i < |o| ==> o[i] < bound
  {
    forall i | 0 <= i < |order| - 1 ensures o[i] < bound { RemoveAt(order, j, i); }
    forall i, k | 0 <= i < k < |order| - 1 ensures o[i] != o[k] {
      RemoveAt(order, j, i);
      RemoveAt(order, j, k);
    }
  }

  /** Where the elements of a sequence with position `j` removed come from. */
  lemma RemoveAt<T>(s: seq<T>, j: nat, i: nat)
    requires j < |s| && i < |s| - 1
    ensures |s[..j] + s[j + 1..]| == |s| - 1
    ensures (s[..j] + s[j + 1..])[i] == if i < j then s[i] else s[i + 1]
  {
  }

  /** One entry of the cache as a caller sees it: the slot, the hash and the buffer. */
  datatype Entry = Entry(slot: nat, key: string, data: array?<byte>)

  /** The entries of the listed nodes, from head to tail. */
  ghost function EntriesOf(nodes: seq<LruNode>, order: seq<nat>): seq<Entry>
    requires forall i :: 0 <= i < |order| ==> order[i] < |nodes|
  {
    seq(|order|, i requires 0 <= i < |order| => Entry(order[i], nodes[order[i]].key, nodes[order[i]].value))
  }

  // ---------------------------------------------------------------------------
  // The link updates of `Lru.put` and `Lru.refresh`, step by step.

  /** `node.prev = null; node.next = head; head.prev = node` */
  function PushFront(nodes: seq<LruNode>, head: int, h: nat): (r: seq<LruNode>)
    requires h < |nodes| && NIL <= head < |nodes|
    ensures |r| == |nodes|
  {
    var n1 := nodes[h := nodes[h].(prev := NIL, next := head)];
    if head != NIL then n1[head := n1[head].(prev := h)] else n1
  }

  /** The new tail's `next` and the old tail's `prev` become null. */
  function CutTail(nodes: seq<LruNode>, newTail: int, currentTail: nat): (r: seq<LruNode>)
    requires NIL <= newTail < |nodes| && currentTail < |nodes|
    ensures |r| == |nodes|
  {
    var n1 := if newTail != NIL then nodes[newTail := nodes[newTail].(next := NIL)] else nodes;
    n1[currentTail := n1[currentTail].(prev := NIL)]
  }

  /** `prev.next = next; next.prev = prev` around node `h`. */
  function Detach(nodes: seq<LruNode>, h: nat): (r: seq<LruNode>)
    requires h < |nodes| && NIL <= nodes[h].prev < |nodes| && NIL <= nodes[h].next < |nodes|
    ensures |r| == |nodes|
  {
    var prev, next := nodes[h].prev, nodes[h].next;
    var n1 := if prev != NIL then nodes[prev := nodes[prev].(next := next)] else nodes;
    if next != NIL then n1[next := n1[next].(prev := prev)] else n1
  }

  /** Only the links of the nodes in `touched` changed; every hash and buffer stayed. */
  ghost predicate OnlyLinksChanged(nodes: seq<LruNode>, nodes': seq<LruNode>, touched: seq<nat>) {
    && |nodes'| == |nodes|
    && (forall i :: 0 <= i < |nodes| ==> SamePayload(nodes, nodes', i))
    && (forall i :: 0 <= i < |nodes| && i !in touched ==> nodes'[i] == nodes[i])
  }

  lemma OnlyLinksChangedTrans(n0: seq<LruNode>, n1: seq<LruNode>, n2: seq<LruNode>, touched: seq<nat>)
    requires OnlyLinksChanged(n0, n1, touched) && OnlyLinksChanged(n1, n2, touched)
    ensures OnlyLinksChanged(n0, n2, touched)
  {
    forall i | 0 <= i < |n0| ensures SamePayload(n0, n2, i) {
      assert SamePayload(n0, n1, i) && SamePayload(n1, n2, i);
    }
  }

  lemma PushFrontLinked(nodes: seq<LruNode>, order: seq<nat>, head: int, tail: int, h: nat)
    requires Linked(nodes, order, head, tail) && h < |nodes| && h !in order
    ensures NIL <= head < |nodes|
    ensures Linked(PushFront(nodes, head, h), [h] + order, h, if tail == NIL then h else tail)
    ensures OnlyLinksChanged(nodes, PushFront(nodes, head, h), [h] + order)
  {
    var r := PushFront(nodes, head, h);
    if head != NIL {
      assert head == order[0] && head != h;
      assert r == nodes[h := nodes[h].(prev := NIL, next := head)][head := nodes[head].(prev := h)];
      assert forall i :: 0 <= i < |nodes| && i != h && i != head ==> r[i] == nodes[i];
      assert head == ([h] + order)[1];
    } else {
      assert forall i :: 0 <= i < |nodes| && i != h ==> r[i] == nodes[i];
    }
    LinkFront(nodes, r, order, head, tail, h);
  }

  lemma CutTailLinked(nodes: seq<LruNode>, order: seq<nat>, head: int, tail: int)
    requires Linked(nodes, order, head, tail) && |order| >= 2
    ensures 0 <= tail < |nodes| && nodes[tail].prev == order[|order| - 2] && order[|order| - 2] < |nodes|
    ensures Linked(CutTail(nodes, nodes[tail].prev, tail), order[..|order| - 1], head, order[|order| - 2])
    ensures OnlyLinksChanged(nodes, CutTail(nodes, nodes[tail].prev, tail), order)
  {
    var n := |order|;
    assert tail == order[n - 1] && nodes[tail].prev == PrevOf(order, n - 1);
    var p := order[n - 2];
    assert p != tail;
    var r := CutTail(nodes, p, tail);
    assert r == nodes[p := nodes[p].(next := NIL)][tail := nodes[tail].(prev := NIL)];
    assert r[p].next == NIL && r[p].prev == nodes[p].prev;
    assert forall i :: 0 <= i < |nodes| && i != p && i != tail ==> r[i] == nodes[i];
    DropTail(nodes, r, order, head, tail);
    CutTailFrame(nodes, p, tail, order);
  }

  lemma CutTailFrame(nodes: seq<LruNode>, p: nat, tail: nat, order: seq<nat>)
    requires p < |nodes| && tail < |nodes| && p != tail && p in order && tail in order
    ensures OnlyLinksChanged(nodes, CutTail(nodes, p, tail), order)
  {
    var r := CutTail(nodes, p, tail);
    assert r == nodes[p := nodes[p].(next := NIL)][tail := nodes[tail].(prev := NIL)];
  }

  lemma DetachLinked(nodes: seq<LruNode>, order: seq<nat>, head: int, tail: int, j: nat)
    requires Linked(nodes, order, head, tail) && 0 < j < |order|
    ensures nodes[order[j]].prev == order[j - 1] && NIL <= nodes[order[j]].next < |nodes|
    ensures Linked(Detach(nodes, order[j]), order[..j] + order[j + 1..], head, if j == |order| - 1 then order[j - 1] else tail)
  {
    var h := order[j];
    assert nodes[h].prev == PrevOf(order, j) && nodes[h].next == NextOf(order, j);
    var r := Detach(nodes, h);
    var p := order[j - 1];
    if j < |order| - 1 {
      var q := order[j + 1];
      assert p != q;
      assert r == nodes[p := nodes[p].(next := q)][q := nodes[q].(prev := p)];
      assert r[p].next == q && r[p].prev == nodes[p].prev;
      assert r[q].prev == p && r[q].next == nodes[q].next;
      assert forall i :: 0 <= i < |nodes| && i != p && i != q ==> r[i] == nodes[i];
    } else {
      assert r == nodes[p := nodes[p].(next := NIL)];
      assert forall i :: 0 <= i < |nodes| && i != p ==> r[i] == nodes[i];
    }
    Unlink(nodes, r, order, head, tail, j);
  }

  /** Taking out position `j` of a list without repetitions leaves a list without
      its element, which put in front gives `MoveToFront`. */
  lemma RemovedFront(order: seq<nat>, j: nat)
    requires j < |order| && forall i, k :: 0 <= i < k < |order| ==> order[i] != order[k]
    ensures order[j] !in order[..j] + order[j + 1..]
    ensures [order[j]] + (order[..j] + order[j + 1..]) == MoveToFront(order, j)
    ensures forall i :: 0 <= i < |order| && order[i] != order[j] ==> order[i] in order[..j] + order[j + 1..]
  {
    var o := order[..j] + order[j + 1..];
    forall i | 0 <= i < |o| ensures o[i] != order[j] { RemoveAt(order, j, i); }
    forall i | 0 <= i < |order| && order[i] != order[j] ensures order[i] in o {
      if i < j { assert o[i] == order[i]; } else { assert o[i - 1] == order[i]; }
    }
  }

  /** The whole of `Lru.refresh` for the node at position `j > 0`: unlink it, then
      link it in front; the list becomes `MoveToFront(order, j)`. */
  lemma RefreshLinked(nodes: seq<LruNode>, order: seq<nat>, head: int, tail: int, j: nat)
    requires Linked(nodes, order, head, tail) && 0 < j < |order|
    ensures NIL <= nodes[order[j]].next < |nodes| && nodes[order[j]].prev == order[j - 1]
    ensures (order[j] == tail) == (j == |order| - 1)
    ensures NIL <= head < |Detach(nodes, order[j])| && order[j] < |Detach(nodes, order[j])|
    ensures var r := PushFront(Detach(nodes, order[j]), head, order[j]);
      && Linked(r, MoveToFront(order, j), order[j], if j == |order| - 1 then order[j - 1] else tail)
  {
    var h := order[j];
    DetachLinked(nodes, order, head, tail, j);
    RemovedFront(order, j);
    var o := order[..j] + order[j + 1..];
    var t := if j == |order| - 1 then order[j - 1] else tail;
    PushFrontLinked(Detach(nodes, h), o, head, t, h);
  }

  /** `Lru.refresh` changes only links, and only those of listed nodes. */
  lemma RefreshFrame(nodes: seq<LruNode>, order: seq<nat>, head: int, tail: int, j: nat)
    requires Linked(nodes, order, head, tail) && 0 < j < |order|
    ensures NIL <= nodes[order[j]].next < |nodes| && NIL <= nodes[order[j]].prev < |nodes|
    ensures NIL <= head < |nodes|
    ensures OnlyLinksChanged(nodes, PushFront(Detach(nodes, order[j]), head, order[j]), order)
  {
    var h := order[j];
    assert nodes[h].prev == PrevOf(order, j) && nodes[h].next == NextOf(order, j);
    assert head == order[0];
    DetachFrame(nodes, h, order);
    PushFrontFrame(Detach(nodes, h), head, h, order);
    OnlyLinksChangedTrans(nodes, Detach(nodes, h), PushFront(Detach(nodes, h), head, h), order);
  }

  lemma DetachFrame(nodes: seq<LruNode>, h: nat, touched: seq<nat>)
    requires h < |nodes| && NIL <= nodes[h].prev < |nodes| && NIL <= nodes[h].next < |nodes|
    requires nodes[h].prev != NIL ==> nodes[h].prev in touched
    requires nodes[h].next != NIL ==> nodes[h].next in touched
    ensures OnlyLinksChanged(nodes, Detach(nodes, h), touched)
  {
  }

  lemma PushFrontFrame(nodes: seq<LruNode>, head: int, h: nat, touched: seq<nat>)
    requires h < |nodes| && NIL <= head < |nodes| && h in touched
    requires head != NIL ==> head in touched
    ensures OnlyLinksChanged(nodes, PushFront(nodes, head, h), touched)
  {
  }

  /** Node `i` carries the same hash and buffer in both arenas. */
  ghost predicate SamePayload(nodes: seq<LruNode>, nodes': seq<LruNode>, i: nat)
    requires i < |nodes| && i < |nodes'|
  {
    nodes'[i].key == nodes[i].key && nodes'[i].value == nodes[i].value
  }

  /** The entries depend only on the payloads of the listed nodes. */
  lemma EntriesFrame(nodes: seq<LruNode>, nodes': seq<LruNode>, order: seq<nat>)
    requires forall i :: 0 <= i < |order| ==> order[i] < |nodes| && order[i] < |nodes'|
    requires forall i :: 0 <= i < |order| ==> SamePayload(nodes, nodes', order[i])
    ensures EntriesOf(nodes, order) == EntriesOf(nodes', order)
  {
  }

  lemma EntriesCons(nodes: seq<LruNode>, h: nat, order: seq<nat>)
    requires h < |nodes| && forall i :: 0 <= i < |order| ==> order[i] < |nodes|
    ensures EntriesOf(nodes, [h] + order) == [Entry(h, nodes[h].key, nodes[h].value)] + EntriesOf(nodes, order)
  {
    var o := [h] + order;
    assert forall i :: 0 < i < |o| ==> o[i] == order[i - 1];
  }

  lemma EntriesTake(nodes: seq<LruNode>, order: seq<nat>, n: nat)
    requires n <= |order| && forall i :: 0 <= i < |order| ==> order[i] < |nodes|
    ensures EntriesOf(nodes, order[..n]) == EntriesOf(nodes, order)[..n]
  {
  }

  lemma EntriesMove(nodes: seq<LruNode>, order: seq<nat>, j: nat)
    requires j < |order| && forall i :: 0 <= i < |order| ==> order[i] < |nodes|
    ensures forall i :: 0 <= i < |order| ==> MoveToFront(order, j)[i] < |nodes|
    ensures EntriesOf(nodes, MoveToFront(order, j)) == MoveToFront(EntriesOf(nodes, order), j)
  {
    var o := MoveToFront(order, j);
    var es := EntriesOf(nodes, order);
    forall i | 0 <= i < |o| ensures o[i] < |nodes| && EntriesOf(nodes, o)[i] == MoveToFront(es, j)[i] {
      MoveToFrontAt(order, j, i);
      MoveToFrontAt(es, j, i);
    }
  }

  /** The observable state of an `LruContentCache`: entries from most to least
      recently used, the `hashing` index from hash to slot, and the capacity. */
  datatype CacheView = CacheView(entries: seq<Entry>, index: map<string, nat>, capacity: nat)

  /** The first position of slot `s` among the entries, or -1. */
  function PositionOf(es: seq<Entry>, s: nat): (p: int)
    ensures -1 <= p < |es|
    ensures p >= 0 ==> es[p].slot == s && forall i :: 0 <= i < p ==> es[i].slot != s
    ensures p < 0 ==> forall i :: 0 <= i < |es| ==> es[i].slot != s
  {
    if es == [] then -1
    else if es[0].slot == s then 0
    else
      var p := PositionOf(es[1..], s);
      if p < 0 then -1 else p + 1
  }

  /** Some entry sits in slot `s` and holds hash `k`. */
  ghost predicate Holds(es: seq<Entry>, s: nat, k: string) {
    exists i :: 0 <= i < |es| && es[i].slot == s && es[i].key == k
  }

  ghost predicate SlotsDistinct(es: seq<Entry>) {
    forall i, j :: 0 <= i < j < |es| ==> es[i].slot != es[j].slot
  }

  /** What every reachable cache satisfies, `purge` included: at most `capacity`
      entries in distinct slots, each with a buffer, and every indexed hash names
      a listed slot that holds that hash. */
  ghost predicate WellFormed(v: CacheView) {
    && 1 <= v.capacity && |v.entries| <= v.capacity
    && SlotsDistinct(v.entries)
    && (forall i :: 0 <= i < |v.entries| ==> v.entries[i].data != null)
    && (forall k :: k in v.index ==> Holds(v.entries, v.index[k], k))
  }

  /** The LRU invariant proper: no hash is listed twice, and the index holds exactly
      the listed hashes, each at its slot. */
  ghost predicate Coherent(v: CacheView) {
    && WellFormed(v)
    && (forall i, j :: 0 <= i < j < |v.entries| ==> v.entries[i].key != v.entries[j].key)
    && (forall i :: 0 <= i < |v.entries| ==> v.entries[i].key in v.index && v.index[v.entries[i].key] == v.entries[i].slot)
  }

  /** The hashes on the list. */
  ghost function Keys(es: seq<Entry>): set<string> {
    set i | 0 <= i < |es| :: es[i].key
  }

  /** Where hash `k`'s node sits on the list: the first entry in the slot the index
      gives for `k`, or -1 when `k` is not indexed (or, in a malformed view, its
      slot is not listed). */
  function Located(v: CacheView, k: string): (p: int)
    ensures -1 <= p < |v.entries|
  {
    if k in v.index then PositionOf(v.entries, v.index[k]) else -1
  }

  /** In a well-formed view every indexed hash is located at an entry holding it. */
  lemma LocatedIndexed(v: CacheView, k: string)
    requires WellFormed(v) && k in v.index
    ensures 0 <= Located(v, k) && v.entries[Located(v, k)].slot == v.index[k] && v.entries[Located(v, k)].key == k
  {
    var i :| 0 <= i < |v.entries| && v.entries[i].slot == v.index[k] && v.entries[i].key == k;
    assert Located(v, k) == i;
  }

  /** The entry at position `j` moved to the front, the others in their old order. */
  function MoveToFront<T>(s: seq<T>, j: nat): (r: seq<T>)
    requires j < |s|
  {
    [s[j]] + s[..j] + s[j + 1..]
  }

  /** `getCache`/`putCache` on a present hash: its entry becomes the most recently
      used one; a missing hash changes nothing. */
  function Touch(v: CacheView, k: string): CacheView {
    var p := Located(v, k);
    if p >= 0 then v.(entries := MoveToFront(v.entries, p)) else v
  }

  /** What `getCache` returns. */
  function Lookup(v: CacheView, k: string): Option<array<byte>> {
    var p := Located(v, k);
    if p >= 0 && v.entries[p].data != null then Some(v.entries[p].data) else None
  }

  /** `putCache(k, data)` where a new node would take slot `s`: a present hash is only
      touched; a new one goes in front, and when the cache is full the tail entry goes
      and its hash leaves the index before the new hash is indexed. */
  function Put(v: CacheView, k: string, data: array<byte>, s: nat): CacheView {
    if k in v.index then Touch(v, k)
    else
      var es := [Entry(s, k, data)] + v.entries;
      // (an empty list with capacity 0 never arises: `Lru` refuses such a capacity)
      if |v.entries| < v.capacity || v.entries == [] then CacheView(es, v.index[k := s], v.capacity)
      else CacheView(es[..v.capacity], (v.index - {v.entries[|v.entries| - 1].key})[k := s], v.capacity)
  }

  /** `LruContentCache.purge` as written: only the index is cleared. */
  function Purge(v: CacheView): CacheView {
    v.(index := map[])
  }

  /** What a purge that also purged the list (`Lru.purge`) would leave. */
  function Cleared(v: CacheView): CacheView {
    CacheView([], map[], v.capacity)
  }

  /** The state of a newly constructed cache. */
  function Empty(capacity: nat): CacheView {
    CacheView([], map[], capacity)
  }

  /** Slot `s` is not used by any listed entry. */
  ghost predicate FreeSlot(v: CacheView, s: nat) {
    forall i :: 0 <= i < |v.entries| ==> v.entries[i].slot != s
  }

  /** In a coherent view the listed hashes are exactly the indexed ones. */
  lemma KeysIndexed(v: CacheView)
    requires Coherent(v)
    ensures Keys(v.entries) == v.index.Keys
  {
    forall k | k in v.index ensures k in Keys(v.entries) {
      LocatedIndexed(v, k);
    }
  }

  lemma KeysCons(e: Entry, es: seq<Entry>)
    ensures Keys([e] + es) == {e.key} + Keys(es)
  {
    var r := [e] + es;
    assert r[0].key == e.key;
    forall x | x in Keys(es) ensures x in Keys(r) {
      var i :| 0 <= i < |es| && es[i].key == x;
      assert r[i + 1].key == x;
    }
    forall x | x in Keys(r) ensures x in {e.key} + Keys(es) {
      var i :| 0 <= i < |r| && r[i].key == x;
      if i > 0 { assert es[i - 1].key == x; }
    }
  }

  /** Dropping the last entry of a list whose hashes are distinct drops its hash. */
  lemma KeysDropLast(es: seq<Entry>)
    requires |es| > 0
    requires forall i, j :: 0 <= i < j < |es| ==> es[i].key != es[j].key
    ensures Keys(es[..|es| - 1]) == Keys(es) - {es[|es| - 1].key}
  {
    var r := es[..|es| - 1];
    forall x | x in Keys(es) - {es[|es| - 1].key} ensures x in Keys(r) {
      var i :| 0 <= i < |es| && es[i].key == x;
      assert r[i].key == x;
    }
    forall x | x in Keys(r) ensures x in Keys(es) - {es[|es| - 1].key} {
      var i :| 0 <= i < |r| && r[i].key == x;
      assert es[i].key == x;
    }
  }

  // ---------------------------------------------------------------------------
  // The effect of one operation.

  /** Where `MoveToFront` takes each element from. */
  lemma MoveToFrontAt<T>(s: seq<T>, j: nat, i: nat)
    requires j < |s| && i < |s|
    ensures |MoveToFront(s, j)| == |s|
    ensures MoveToFront(s, j)[i] == if i == 0 then s[j] else if i <= j then s[i - 1] else s[i]
  {
  }

  /** Where each old element ends up after `MoveToFront`. */
  function MovedTo(j: nat, i: nat): nat {
    if i == j then 0 else if i < j then i + 1 else i
  }

  lemma MoveToFrontFrom<T>(s: seq<T>, j: nat, i: nat)
    requires j < |s| && i < |s|
    ensures MovedTo(j, i) < |s| && MoveToFront(s, j)[MovedTo(j, i)] == s[i]
  {
    MoveToFrontAt(s, j, MovedTo(j, i));
  }

  /** With distinct slots, the entry in slot `s` is the one `PositionOf` finds. */
  lemma PositionUnique(es: seq<Entry>, q: nat)
    requires SlotsDistinct(es) && q < |es|
    ensures PositionOf(es, es[q].slot) == q
  {
  }

  /** Touching keeps a cache well formed, and coherent when it was; it changes
      neither the index, the capacity, the size nor the set of hashes. */
  lemma TouchPreserves(v: CacheView, k: string)
    requires WellFormed(v)
    ensures WellFormed(Touch(v, k))
    ensures Coherent(v) ==> Coherent(Touch(v, k))
    ensures Touch(v, k).index == v.index && Touch(v, k).capacity == v.capacity
    ensures |Touch(v, k).entries| == |v.entries| && Keys(Touch(v, k).entries) == Keys(v.entries)
  {
    var j := Located(v, k);
    if j >= 0 {
      MoveToFrontWellFormed(v, j);
      MoveToFrontKeys(v.entries, j);
      if Coherent(v) {
        MoveToFrontCoherent(v, j);
      }
    }
  }

  lemma MoveToFrontWellFormed(v: CacheView, j: nat)
    requires WellFormed(v) && j < |v.entries|
    ensures WellFormed(v.(entries := MoveToFront(v.entries, j)))
  {
    var es, es' := v.entries, MoveToFront(v.entries, j);
    forall i | 0 <= i < |es'| ensures es'[i].data != null { MoveToFrontAt(es, j, i); }
    forall i, i' | 0 <= i < i' < |es'| ensures es'[i].slot != es'[i'].slot {
      MoveToFrontAt(es, j, i);
      MoveToFrontAt(es, j, i');
    }
    forall k' | k' in v.index ensures Holds(es', v.index[k'], k') {
      LocatedIndexed(v, k');
      MoveToFrontFrom(es, j, Located(v, k'));
    }
  }

  lemma MoveToFrontKeys(es: seq<Entry>, j: nat)
    requires j < |es|
    ensures Keys(MoveToFront(es, j)) == Keys(es)
  {
    var es' := MoveToFront(es, j);
    forall x | x in Keys(es) ensures x in Keys(es') {
      var i :| 0 <= i < |es| && es[i].key == x;
      MoveToFrontFrom(es, j, i);
    }
    forall x | x in Keys(es') ensures x in Keys(es) {
      var i :| 0 <= i < |es'| && es'[i].key == x;
      MoveToFrontAt(es, j, i);
    }
  }

  lemma MoveToFrontCoherent(v: CacheView, j: nat)
    requires Coherent(v) && j < |v.entries|
    ensures Coherent(v.(entries := MoveToFront(v.entries, j)))
  {
    MoveToFrontWellFormed(v, j);
    var es, es' := v.entries, MoveToFront(v.entries, j);
    forall i, i' | 0 <= i < i' < |es'| ensures es'[i].key != es'[i'].key {
      MoveToFrontAt(es, j, i);
      MoveToFrontAt(es, j, i');
    }
    forall i | 0 <= i < |es'| ensures es'[i].key in v.index && v.index[es'[i].key] == es'[i].slot {
      MoveToFrontAt(es, j, i);
    }
  }

  /** Putting a hash into a well-formed cache, with a slot no entry uses, keeps it
      well formed, and coherent when it was. */
  lemma PutPreserves(v: CacheView, k: string, data: array<byte>, s: nat)
    requires WellFormed(v) && FreeSlot(v, s)
    ensures WellFormed(Put(v, k, data, s))
    ensures Coherent(v) ==> Coherent(Put(v, k, data, s))
  {
    if k in v.index {
      TouchPreserves(v, k);
    } else {
      PutNewWellFormed(v, k, data, s);
      if Coherent(v) {
        PutNewCoherent(v, k, data, s);
      }
    }
  }

  /** Putting a new hash: the new entry goes in front of the kept ones. */
  lemma PutNewWellFormed(v: CacheView, k: string, data: array<byte>, s: nat)
    requires WellFormed(v) && FreeSlot(v, s) && k !in v.index
    ensures WellFormed(Put(v, k, data, s))
  {
    var es := v.entries;
    var r := Put(v, k, data, s);
    var es' := r.entries;
    assert forall i :: 0 <= i < |es'| ==> es'[i] == if i == 0 then Entry(s, k, data) else es[i - 1];
    forall k' | k' in r.index ensures Holds(es', r.index[k'], k') {
      if k' != k {
        LocatedIndexed(v, k');
        var p := Located(v, k');
        assert es'[p + 1] == es[p];
      } else {
        assert es'[0].slot == s && es'[0].key == k;
      }
    }
  }

  /** Putting a new hash into a coherent cache indexes exactly the listed hashes. */
  lemma PutNewCoherent(v: CacheView, k: string, data: array<byte>, s: nat)
    requires Coherent(v) && FreeSlot(v, s) && k !in v.index && WellFormed(Put(v, k, data, s))
    ensures Coherent(Put(v, k, data, s))
  {
    var es := v.entries;
    var r := Put(v, k, data, s);
    var es' := r.entries;
    assert forall i :: 0 <= i < |es'| ==> es'[i] == if i == 0 then Entry(s, k, data) else es[i - 1];
    forall i | 0 <= i < |es'| ensures es'[i].key in r.index && r.index[es'[i].key] == es'[i].slot {
      if i > 0 && |es| == v.capacity {
        assert es'[i].key != es[|es| - 1].key;
      }
    }
  }

  // ---------------------------------------------------------------------------
  // The LRU policy.

  /** A miss leaves the cache as it was; a hit returns the stored buffer and makes
      its entry the head, keeping the relative order of the others. */
  lemma GetCacheEffect(v: CacheView, k: string)
    requires Coherent(v)
    ensures k !in Keys(v.entries) ==> Lookup(v, k) == None && Touch(v, k) == v
    ensures k in Keys(v.entries) ==>
      exists j :: 0 <= j < |v.entries| && v.entries[j].key == k
        && Lookup(v, k) == Some(v.entries[j].data)
        && Touch(v, k).entries == [v.entries[j]] + v.entries[..j] + v.entries[j + 1..]
  {
    KeysIndexed(v);
    if k in Keys(v.entries) {
      var j :| 0 <= j < |v.entries| && v.entries[j].key == k;
      LocatedIndexed(v, k);
      assert Located(v, k) == j;
    }
  }

  /** `putCache` of a hash that is already cached only refreshes it: the entry becomes
      the head with its old buffer, and the index, the size and the set of hashes stay. */
  lemma PutPresent(v: CacheView, k: string, data: array<byte>, s: nat)
    requires Coherent(v) && k in Keys(v.entries)
    ensures var r := Put(v, k, data, s);
      && Coherent(r)
      && r.index == v.index && |r.entries| == |v.entries| && Keys(r.entries) == Keys(v.entries)
      && r.entries[0].key == k
      && Lookup(r, k) == Lookup(v, k)
  {
    KeysIndexed(v);
    LocatedIndexed(v, k);
    TouchPreserves(v, k);
    var r := Put(v, k, data, s);
    assert r.entries[0] == v.entries[Located(v, k)];
    PositionUnique(r.entries, 0);
  }

  /** `putCache` of a new hash into a cache that is not full puts it at the head with
      the given buffer and evicts nothing. */
  lemma PutNewNotFull(v: CacheView, k: string, data: array<byte>, s: nat)
    requires Coherent(v) && k !in Keys(v.entries) && |v.entries| < v.capacity
    ensures var r := Put(v, k, data, s);
      && r.entries == [Entry(s, k, data)] + v.entries
      && Keys(r.entries) == Keys(v.entries) + {k}
      && r.index == v.index[k := s]
  {
    KeysIndexed(v);
    KeysCons(Entry(s, k, data), v.entries);
  }

  /** `putCache` of a new hash into a full cache evicts exactly the tail, the least
      recently used entry: its hash leaves the list and the index, the new hash is
      at the head, and the size stays at capacity. */
  lemma PutNewFull(v: CacheView, k: string, data: array<byte>, s: nat)
    requires Coherent(v) && k !in Keys(v.entries) && |v.entries| == v.capacity
    ensures var r := Put(v, k, data, s);
      var lru := v.entries[|v.entries| - 1];
      && r.entries == [Entry(s, k, data)] + v.entries[..|v.entries| - 1]
      && |r.entries| == r.capacity
      && Keys(r.entries) == Keys(v.entries) - {lru.key} + {k}
      && lru.key !in r.index && lru.key !in Keys(r.entries)
  {
    var es := v.entries;
    var e := Entry(s, k, data);
    KeysIndexed(v);
    assert ([e] + es)[..v.capacity] == [e] + es[..|es| - 1];
    KeysCons(e, es[..|es| - 1]);
    KeysDropLast(es);
    assert es[|es| - 1].key in Keys(es);
  }

  /** After a touch every hash reads as before. */
  lemma LookupAfterTouch(v: CacheView, k: string, k': string)
    requires Coherent(v)
    ensures Lookup(Touch(v, k), k') == Lookup(v, k')
  {
    TouchPreserves(v, k);
    var j := Located(v, k);
    if j >= 0 && k' in v.index {
      LocatedIndexed(v, k');
      var p := Located(v, k');
      MoveToFrontFrom(v.entries, j, p);
      PositionUnique(Touch(v, k).entries, MovedTo(j, p));
    }
  }

  /** After a `putCache` of a new hash, it reads as the given buffer, the evicted tail's
      hash (when the cache was full) reads as missing, and every other hash as before. */
  lemma LookupAfterPutNew(v: CacheView, k: string, data: array<byte>, s: nat, k': string)
    requires Coherent(v) && FreeSlot(v, s) && k !in v.index
    ensures var r := Put(v, k, data, s);
      Lookup(r, k') == (
        if k' == k then Some(data)
        else if |v.entries| == v.capacity && k' == v.entries[|v.entries| - 1].key then None
        else Lookup(v, k'))
  {
    PutPreserves(v, k, data, s);
    var r := Put(v, k, data, s);
    var es := v.entries;
    if k' == k {
      LookupAt(r, k, 0);
    } else if |es| == v.capacity && k' == es[|es| - 1].key {
      assert k' !in r.index;
    } else if k' in v.index {
      LookupAfterPutKept(v, k, data, s, k');
    } else {
      assert k' !in r.index;
    }
  }

  /** A hash other than the new one and the evicted one keeps reading its buffer. */
  lemma LookupAfterPutKept(v: CacheView, k: string, data: array<byte>, s: nat, k': string)
    requires WellFormed(v) && k !in v.index && k' in v.index && k' != k
    requires |v.entries| == v.capacity ==> k' != v.entries[|v.entries| - 1].key
    requires SlotsDistinct(Put(v, k, data, s).entries)
    ensures Lookup(Put(v, k, data, s), k') == Lookup(v, k')
  {
    var r := Put(v, k, data, s);
    var es := v.entries;
    LocatedIndexed(v, k');
    var p := Located(v, k');
    if |es| == v.capacity {
      assert p != |es| - 1;
    }
    assert r.entries[p + 1] == es[p];
    LookupAt(r, k', p + 1);
  }

  /** A hash indexed at the slot of entry `p` reads as that entry's buffer. */
  lemma LookupAt(v: CacheView, k: string, p: nat)
    requires SlotsDistinct(v.entries) && p < |v.entries| && k in v.index && v.index[k] == v.entries[p].slot
    requires v.entries[p].data != null
    ensures Lookup(v, k) == Some(v.entries[p].data)
  {
    PositionUnique(v.entries, p);
  }

  /** Reading back: after `putCache(k, data)` a lookup of `k` yields the old buffer if
      `k` was cached and `data` otherwise; any other hash reads as before unless it
      was the evicted tail. */
  lemma LookupAfterPut(v: CacheView, k: string, data: array<byte>, s: nat, k': string)
    requires Coherent(v) && FreeSlot(v, s)
    ensures var r := Put(v, k, data, s);
      Lookup(r, k') == (
        if k' == k then (if k in v.index then Lookup(v, k) else Some(data))
        else if k !in v.index && |v.entries| == v.capacity && k' == v.entries[|v.entries| - 1].key then None
        else Lookup(v, k'))
  {
    if k in v.index {
      LookupAfterTouch(v, k, k');
    } else {
      LookupAfterPutNew(v, k, data, s, k');
    }
  }

  /** `getCache(k)` does not change what a second `getCache(k)` returns, in any view. */
  lemma {:induction false} LookupTouchSelf(v: CacheView, k: string)
    ensures Lookup(Touch(v, k), k) == Lookup(v, k)
  {
    var p := Located(v, k);
    if p >= 0 {
      var es := MoveToFront(v.entries, p);
      assert es[0] == v.entries[p];
      assert PositionOf(es, v.index[k]) == 0;
    }
  }

  /** After `putCache(k, data)` the hash `k` reads as the buffer it already had, or as
      `data` when it was not indexed; this holds even in a purged view. */
  lemma {:induction false} LookupPutSelf(v: CacheView, k: string, data: array<byte>, s: nat)
    requires 1 <= v.capacity
    ensures Lookup(Put(v, k, data, s), k) == if k in v.index then Lookup(v, k) else Some(data)
  {
    if k in v.index {
      LookupTouchSelf(v, k);
    } else {
      var r := Put(v, k, data, s);
      assert r.entries[0] == Entry(s, k, data) && r.index[k] == s;
      assert PositionOf(r.entries, s) == 0;
    }
  }

  /** A put never makes another missing hash readable, even in a purged cache. */
  lemma PutKeepsMissing(v: CacheView, k: string, data: array<byte>, s: nat, k': string)
    requires WellFormed(v) && k' != k && Lookup(v, k').None?
    ensures Lookup(Put(v, k, data, s), k').None?
  {
    if k' in v.index {
      IndexedFound(v, k');
    }
  }

  /** A `getCache` that misses leaves a well-formed view as it was. */
  lemma TouchMissed(v: CacheView, k: string)
    requires WellFormed(v) && Lookup(v, k).None?
    ensures Touch(v, k) == v
  {
    assert forall i :: 0 <= i < |v.entries| ==> v.entries[i].data != null;
  }

  /** In a well-formed view an indexed hash always reads as some buffer. */
  lemma IndexedFound(v: CacheView, k: string)
    requires WellFormed(v) && k in v.index
    ensures Lookup(v, k).Some?
  {
    LocatedIndexed(v, k);
  }

  // ---------------------------------------------------------------------------
  // Construction and purge.

  /** A new cache is coherent and holds nothing. */
  lemma EmptyCoherent(capacity: nat)
    requires 1 <= capacity
    ensures Coherent(Empty(capacity)) && Keys(Empty(capacity).entries) == {}
  {
  }

  /** Purging the index only keeps the cache well formed, but once anything was
      cached it is no longer coherent: listed hashes are missing from the index. */
  lemma PurgeBreaksCoherence(v: CacheView)
    requires Coherent(v) && |v.entries| > 0
    ensures WellFormed(Purge(v)) && !Coherent(Purge(v))
    ensures Lookup(Purge(v), v.entries[0].key) == None && v.entries[0].key in Keys(Purge(v).entries)
  {
    assert Purge(v).entries[0].key in Keys(Purge(v).entries);
  }

  /** After a purge, re-putting a hash that is still listed lists it twice, and a
      later eviction of the stale copy unindexes the live one: with capacity 3, put
      "a", "b", "c", purge, put "b", put "x" -- "b" is still listed but `getCache("b")`
      misses and the cache can never evict or find it by hash again. The slots are the
      ones the node pool hands out: "x" reuses slot 0, freed when "a" was evicted. */
  lemma PurgeStrandsEntry(d: array<byte>)
    ensures var v0 := Put(Put(Put(Empty(3), "a", d, 0), "b", d, 1), "c", d, 2);
      var v1 := Put(Purge(v0), "b", d, 3);
      var v2 := Put(v1, "x", d, 0);
      && Coherent(v0)
      && v1.entries == [Entry(3, "b", d), Entry(2, "c", d), Entry(1, "b", d)]
      && v2.entries == [Entry(0, "x", d), Entry(3, "b", d), Entry(2, "c", d)] && v2.index == map["x" := 0]
      && Lookup(v2, "b") == None && !Coherent(v2)
  {
    PutThree(d);
    var v0 := CacheView([Entry(2, "c", d), Entry(1, "b", d), Entry(0, "a", d)], map["a" := 0, "b" := 1, "c" := 2], 3);
    assert v0.entries[2].slot == 0 && v0.entries[2].key == "a";
    assert v0.entries[1].slot == 1 && v0.entries[1].key == "b";
    assert v0.entries[0].slot == 2 && v0.entries[0].key == "c";
    PutAfterPurge(d);
    var v2 := CacheView([Entry(0, "x", d), Entry(3, "b", d), Entry(2, "c", d)], map["x" := 0], 3);
    assert v2.entries[1].key == "b";
  }

  /** Put "a", "b", "c" into an empty cache of capacity 3. */
  lemma PutThree(d: array<byte>)
    ensures Put(Put(Put(Empty(3), "a", d, 0), "b", d, 1), "c", d, 2)
      == CacheView([Entry(2, "c", d), Entry(1, "b", d), Entry(0, "a", d)], map["a" := 0, "b" := 1, "c" := 2], 3)
  {
    assert Put(Empty(3), "a", d, 0) == CacheView([Entry(0, "a", d)], map["a" := 0], 3);
    assert Put(Put(Empty(3), "a", d, 0), "b", d, 1) == CacheView([Entry(1, "b", d), Entry(0, "a", d)], map["a" := 0, "b" := 1], 3);
  }

  /** Purge that cache, then put "b" and "x". */
  lemma PutAfterPurge(d: array<byte>)
    ensures var v1 := Put(Purge(CacheView([Entry(2, "c", d), Entry(1, "b", d), Entry(0, "a", d)], map["a" := 0, "b" := 1, "c" := 2], 3)), "b", d, 3);
      && v1 == CacheView([Entry(3, "b", d), Entry(2, "c", d), Entry(1, "b", d)], map["b" := 3], 3)
      && Put(v1, "x", d, 0) == CacheView([Entry(0, "x", d), Entry(3, "b", d), Entry(2, "c", d)], map["x" := 0], 3)
  {
    var v1 := CacheView([Entry(3, "b", d), Entry(2, "c", d), Entry(1, "b", d)], map["b" := 3], 3);
    assert v1.entries[2].key == "b";
    assert (v1.index - {"b"})["x" := 0] == map["x" := 0];
  }

  /** Purging both the index and the list, as `Lru.purge` would, leaves an empty,
      coherent cache of the same capacity. */
  lemma ClearedCoherent(v: CacheView)
    requires WellFormed(v)
    ensures Coherent(Cleared(v)) && Cleared(v) == Empty(v.capacity)
  {
  }
}
