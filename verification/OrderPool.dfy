/**
 The order pool: a slab of nodes threaded by a free list through the same `next` field that links
 a resting order into its level.
 */
module Pool {
  import opened Types
  import opened Queues
  import opened Reference

  datatype Node = Node(ord: Order, live: bool, prev: nat, next: nat, gen: nat)

  const BLANK := Order(0, 0, 0, 0, Buy, Limit, GTC, 0, 0)

  function CellOf(n: Node): Cell {
    Cell(n.gen, if n.live then Some(n.ord) else None)
  }

  function Cells(nodes: seq<Node>): (c: seq<Cell>)
    ensures |c| == |nodes|
    ensures forall i | 0 <= i < |nodes| :: c[i] == CellOf(nodes[i])
  {
    seq(|nodes|, i requires 0 <= i < |nodes| => CellOf(nodes[i]))
  }

  function First(l: seq<nat>): nat {
    if l == [] then NULL else l[0]
  }

  function Last(l: seq<nat>): nat {
    if l == [] then NULL else l[|l| - 1]
  }

  /** Successor of position `k` in a list, NULL at the end. */
  function After(l: seq<nat>, k: nat): nat {
    if k + 1 < |l| then l[k + 1] else NULL
  }

  /** Predecessor of position `k` in a list, NULL at the front. */
  function Before(l: seq<nat>, k: nat): nat {
    if 0 < k <= |l| then l[k - 1] else NULL
  }

  /** The `next` fields from `head` thread exactly the dead slots of `l`. */
  ghost predicate FreeChain(nodes: seq<Node>, head: nat, l: seq<nat>) {
    && head == First(l)
    && Distinct(l)
    && (forall k | 0 <= k < |l| :: l[k] < |nodes|)
    && (forall k {:trigger nodes[l[k]]} | 0 <= k < |l| :: !nodes[l[k]].live && nodes[l[k]].next == After(l, k))
  }

  class OrderPool {
    var nodes: seq<Node>
    var freeHead: nat
    var live: int
    ghost var free: seq<nat>

    ghost predicate Valid()
      reads this
    {
      && |nodes| <= NULL
      && FreeChain(nodes, freeHead, free)
      && live + |free| == |nodes|
    }

    constructor (capacity: nat)
      requires capacity <= NULL
      ensures Valid() && live == 0
      ensures Cells(nodes) == seq(capacity, _ => Cell(1, None))
      ensures free == seq(capacity, i => i)
    {
      nodes := seq(capacity, i requires 0 <= i => Node(BLANK, false, NULL, if i + 1 < capacity then i + 1 else NULL, 1));
      freeHead := if capacity > 0 then 0 else NULL;
      live := 0;
      free := seq(capacity, i => i);
    }

    /** Pops the free list; NULL when the pool is exhausted. */
    method Alloc() returns (slot: nat)
      requires Valid()
      modifies this
      ensures Valid()
      ensures old(free) == [] ==> slot == NULL && nodes == old(nodes) && free == []
      ensures old(free) != [] ==>
                && slot == old(free)[0] && slot < |old(nodes)| && free == old(free)[1..]
                && (var gen := old(nodes)[slot].gen;
                    nodes == old(nodes)[slot := Node(BLANK.(id := gen * TWO32 + slot), true, NULL, NULL, gen)])
    {
      if freeHead == NULL {
        return NULL;
      }
      slot := freeHead;
      assert !nodes[free[0]].live;
      freeHead := nodes[slot].next;
      var gen := nodes[slot].gen;
      nodes := nodes[slot := Node(BLANK.(id := gen * TWO32 + slot), true, NULL, NULL, gen)];
      live := live + 1;
      free := free[1..];
      assert forall k {:trigger nodes[free[k]]} | 0 <= k < |free| ::
          free[k] == old(free)[k + 1] && nodes[free[k]] == old(nodes)[old(free)[k + 1]];
    }

    /** Pushes a live slot on the free list and advances its generation, skipping 0. */
    method Free(slot: nat)
      requires Valid() && slot < |nodes| && nodes[slot].live
      modifies this
      ensures Valid() && free == [slot] + old(free)
      ensures |nodes| == |old(nodes)| && nodes == old(nodes)[slot := nodes[slot]]
      ensures CellOf(nodes[slot]) == Cell(NextGen(old(nodes)[slot].gen), None)
    {
      var n := nodes[slot];
      var gen := (n.gen + 1) % TWO32;
      nodes := nodes[slot := n.(live := false, gen := if gen != 0 then gen else 1, next := freeHead)];
      freeHead := slot;
      live := live - 1;
      free := [slot] + free;
      assert forall k {:trigger nodes[free[k]]} | 1 <= k < |free| ::
          free[k] == old(free)[k - 1] && nodes[free[k]] == old(nodes)[old(free)[k - 1]];
    }

    /** Writes the terms of a live order. */
    method Write(slot: nat, o: Order)
      requires Valid() && slot < |nodes| && nodes[slot].live
      modifies this`nodes
      ensures Valid() && nodes == old(nodes)[slot := old(nodes)[slot].(ord := o)]
    {
      nodes := nodes[slot := nodes[slot].(ord := o)];
    }

    /** The slot of a live order with exactly this id, or NULL. */
    method Find(id: nat) returns (slot: nat)
      requires Valid()
      ensures slot == NULL || (slot < |nodes| && nodes[slot].live && nodes[slot].ord.id == id)
      ensures (if slot == NULL then None else Some(slot))
           == (var i := id % TWO32; if i < |nodes| && nodes[i].live && nodes[i].ord.id == id then Some(i) else None)
    {
      slot := id % TWO32;
      if slot >= |nodes| || !nodes[slot].live || nodes[slot].ord.id != id { slot := NULL; }
    }
  }
}
