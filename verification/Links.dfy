/**
 One price level as a doubly-linked list through the pool, against the FIFO it represents.
 */
module Links {
  import opened Types
  import opened Queues
  import opened Reference
  import opened Pool

  datatype Level = Level(head: nat, tail: nat, qty: nat, count: nat)

  const EMPTY_LEVEL := Level(NULL, NULL, 0, 0)

  /** The `k`th slot of `l` holds a live order linked to its neighbours. */
  predicate Threaded(nodes: seq<Node>, l: seq<nat>, k: nat)
    requires k < |l|
  {
    l[k] < |nodes| && nodes[l[k]].live && nodes[l[k]].next == After(l, k) && nodes[l[k]].prev == Before(l, k)
  }

  /** `prev` and `next` thread exactly the live slots of `l`, from `head` to `tail`. */
  ghost predicate Linked(nodes: seq<Node>, head: nat, tail: nat, l: seq<nat>) {
    && head == First(l) && tail == Last(l) && Distinct(l)
    && (forall k: nat | k < |l| :: Threaded(nodes, l, k))
  }

  /** The level is the FIFO `l` of orders belonging at `k`; its total is 32 bits wide and wraps. */
  ghost predicate LevelRep(nodes: seq<Node>, lvl: Level, l: seq<nat>, k: Key) {
    && Linked(nodes, lvl.head, lvl.tail, l)
    && (forall i | i in l :: i < |nodes| && KeyOf(nodes[i].ord) == k)
    && lvl.count == |l|
    && lvl.qty == Sum(Cells(nodes), l) % TWO32
  }

  // ---------------------------------------------------------------- totals

  lemma {:induction false} SumConcat(c: seq<Cell>, a: seq<nat>, b: seq<nat>)
    ensures Sum(c, a + b) == Sum(c, a) + Sum(c, b)
  {
    if a == [] {
      assert a + b == b;
    } else {
      assert (a + b)[1..] == a[1..] + b;
      SumConcat(c, a[1..], b);
    }
  }

  lemma SumAt(c: seq<Cell>, l: seq<nat>, j: nat)
    requires j < |l|
    ensures Sum(c, l) == Sum(c, l[..j]) + QtyAt(c, l[j]) + Sum(c, l[j + 1..])
    ensures Sum(c, l[..j] + l[j + 1..]) == Sum(c, l) - QtyAt(c, l[j])
  {
    assert l == l[..j] + ([l[j]] + l[j + 1..]);
    SumConcat(c, l[..j], [l[j]] + l[j + 1..]);
    SumConcat(c, [l[j]], l[j + 1..]);
    SumConcat(c, l[..j], l[j + 1..]);
  }

  // ---------------------------------------------------------------- list surgery

  /** Node writes of Book::insert. */
  function LinkBack(nodes: seq<Node>, slot: nat, tail: nat): seq<Node>
    requires slot < |nodes| && (tail == NULL || tail < |nodes|)
  {
    var n := nodes[slot := nodes[slot].(prev := tail, next := NULL)];
    if tail != NULL then n[tail := n[tail].(next := slot)] else n
  }

  predicate CanUnlink(nodes: seq<Node>, slot: nat) {
    && slot < |nodes| <= NULL
    && (nodes[slot].prev == NULL || nodes[slot].prev < |nodes|)
    && (nodes[slot].next == NULL || nodes[slot].next < |nodes|)
  }

  /** Node writes of Book::unlink. */
  function Unlinked(nodes: seq<Node>, slot: nat): (r: seq<Node>)
    requires CanUnlink(nodes, slot)
    ensures |r| == |nodes|
    ensures forall i | 0 <= i < |nodes| :: r[i] == nodes[i].(
                next := if i == slot then NULL else if i == nodes[slot].prev then nodes[slot].next else nodes[i].next,
                prev := if i == slot then NULL else if i == nodes[slot].next then nodes[slot].prev else nodes[i].prev)
  {
    var o := nodes[slot];
    var a := if o.prev != NULL then nodes[o.prev := nodes[o.prev].(next := o.next)] else nodes;
    var b := if o.next != NULL then a[o.next := a[o.next].(prev := o.prev)] else a;
    b[slot := b[slot].(prev := NULL, next := NULL)]
  }

  lemma LevelFrame(nodes: seq<Node>, nodes': seq<Node>, lvl: Level, l: seq<nat>, k: Key)
    requires LevelRep(nodes, lvl, l, k) && |nodes'| == |nodes|
    requires forall i | i in l :: nodes'[i] == nodes[i]
    ensures LevelRep(nodes', lvl, l, k)
  {
    forall j: nat | j < |l| ensures Threaded(nodes', l, j) {
      assert Threaded(nodes, l, j) && l[j] in l;
    }
    SumFrame(Cells(nodes), Cells(nodes'), l);
  }

  lemma LinkBackLinked(nodes: seq<Node>, head: nat, tail: nat, l: seq<nat>, slot: nat)
    requires Linked(nodes, head, tail, l) && |nodes| <= NULL
    requires slot < |nodes| && slot !in l && nodes[slot].live
    ensures tail == NULL || tail < |nodes|
    ensures Linked(LinkBack(nodes, slot, tail), if tail != NULL then head else slot, slot, l + [slot])
  {
    assert l != [] ==> Threaded(nodes, l, |l| - 1);
    var n, l' := LinkBack(nodes, slot, tail), l + [slot];
    forall j: nat | j < |l'| ensures Threaded(n, l', j) {
      if j < |l| { assert Threaded(nodes, l, j) && l[j] in l; }
    }
  }

  lemma Wrap(a: int, b: int)
    ensures (a % TWO32 + b) % TWO32 == (a + b) % TWO32
  {
  }

  lemma LinkBackRep(nodes: seq<Node>, lvl: Level, l: seq<nat>, k: Key, slot: nat)
    requires LevelRep(nodes, lvl, l, k) && |nodes| <= NULL
    requires slot < |nodes| && slot !in l && nodes[slot].live && KeyOf(nodes[slot].ord) == k
    ensures lvl.tail == NULL || lvl.tail < |nodes|
    ensures LevelRep(LinkBack(nodes, slot, lvl.tail),
                     Level(if lvl.tail != NULL then lvl.head else slot, slot,
                           (lvl.qty + nodes[slot].ord.qty) % TWO32, lvl.count + 1), l + [slot], k)
  {
    LinkBackLinked(nodes, lvl.head, lvl.tail, l, slot);
    var n := LinkBack(nodes, slot, lvl.tail);
    assert |n| == |nodes| && forall i | 0 <= i < |nodes| :: CellOf(n[i]) == CellOf(nodes[i]);
    SumConcat(Cells(n), l, [slot]);
    SumFrame(Cells(nodes), Cells(n), l);
    assert Sum(Cells(n), [slot]) == nodes[slot].ord.qty;
    Wrap(Sum(Cells(nodes), l), nodes[slot].ord.qty);
  }

  lemma UnlinkedAt(nodes: seq<Node>, head: nat, tail: nat, l: seq<nat>, j: nat, i: nat)
    requires Linked(nodes, head, tail, l) && |nodes| <= NULL && j < |l| && i < |l| - 1
    ensures CanUnlink(nodes, l[j])
    ensures var n := Unlinked(nodes, l[j]);
            var l' := l[..j] + l[j + 1..];
            Threaded(n, l', i)
  {
    var i' := if i < j then i else i + 1;
    assert Threaded(nodes, l, j) && Threaded(nodes, l, i');
    assert j > 0 ==> Threaded(nodes, l, j - 1);
    assert j + 1 < |l| ==> Threaded(nodes, l, j + 1);
    assert (l[..j] + l[j + 1..])[i] == l[i'];
    assert i' != j && (l[i'] == Before(l, j) <==> i' == j - 1) && (l[i'] == After(l, j) <==> i' == j + 1);
  }

  lemma DropAt(l: seq<nat>, j: nat)
    requires Distinct(l) && j < |l|
    ensures var l' := l[..j] + l[j + 1..];
            && Distinct(l')
            && First(l') == (if j > 0 then First(l) else After(l, j))
            && Last(l') == (if j + 1 < |l| then Last(l) else Before(l, j))
  {
  }

  lemma UnlinkedLinked(nodes: seq<Node>, head: nat, tail: nat, l: seq<nat>, j: nat)
    requires Linked(nodes, head, tail, l) && |nodes| <= NULL && j < |l|
    ensures CanUnlink(nodes, l[j])
    ensures var o := nodes[l[j]];
            Linked(Unlinked(nodes, l[j]), if o.prev != NULL then head else o.next, if o.next != NULL then tail else o.prev,
                   l[..j] + l[j + 1..])
  {
    assert Threaded(nodes, l, j);
    assert j > 0 ==> Threaded(nodes, l, j - 1);
    assert j + 1 < |l| ==> Threaded(nodes, l, j + 1);
    DropAt(l, j);
    var n, l' := Unlinked(nodes, l[j]), l[..j] + l[j + 1..];
    forall i: nat | i < |l'| ensures Threaded(n, l', i) {
      UnlinkedAt(nodes, head, tail, l, j, i);
    }
  }

  lemma UnlinkedRep(nodes: seq<Node>, lvl: Level, l: seq<nat>, k: Key, j: nat)
    requires LevelRep(nodes, lvl, l, k) && |nodes| <= NULL && j < |l|
    ensures CanUnlink(nodes, l[j])
    ensures var o := nodes[l[j]];
            LevelRep(Unlinked(nodes, l[j]),
                     Level(if o.prev != NULL then lvl.head else o.next, if o.next != NULL then lvl.tail else o.prev,
                           (lvl.qty - o.ord.qty) % TWO32, lvl.count - 1), l[..j] + l[j + 1..], k)
  {
    UnlinkedLinked(nodes, lvl.head, lvl.tail, l, j);
    var n, l' := Unlinked(nodes, l[j]), l[..j] + l[j + 1..];
    assert Threaded(nodes, l, j);
    forall i | i in l' ensures i in l && KeyOf(n[i].ord) == k && CellOf(n[i]) == CellOf(nodes[i]) {
    }
    assert Sum(Cells(n), l') == Sum(Cells(nodes), l) - nodes[l[j]].ord.qty by {
      SumAt(Cells(nodes), l, j);
      SumFrame(Cells(nodes), Cells(n), l');
    }
    Wrap(Sum(Cells(nodes), l), 0 - nodes[l[j]].ord.qty);
  }

  lemma RequantityLinked(nodes: seq<Node>, head: nat, tail: nat, l: seq<nat>, i: nat, o: Order)
    requires Linked(nodes, head, tail, l) && i < |nodes|
    ensures Linked(nodes[i := nodes[i].(ord := o)], head, tail, l)
  {
    var n := nodes[i := nodes[i].(ord := o)];
    forall j: nat | j < |l| ensures Threaded(n, l, j) {
      assert Threaded(nodes, l, j);
    }
  }

  /** Changing the quantity of one listed order and the total with it. */
  lemma RequantityRep(nodes: seq<Node>, lvl: Level, l: seq<nat>, k: Key, j: nat, x: U32)
    requires LevelRep(nodes, lvl, l, k) && j < |l| && l[j] < |nodes|
    ensures var o := nodes[l[j]].ord;
            LevelRep(nodes[l[j] := nodes[l[j]].(ord := o.(qty := x))], lvl.(qty := (lvl.qty - (o.qty - x)) % TWO32), l, k)
  {
    var o := nodes[l[j]].ord;
    var n := nodes[l[j] := nodes[l[j]].(ord := o.(qty := x))];
    assert Threaded(nodes, l, j);
    RequantityLinked(nodes, lvl.head, lvl.tail, l, l[j], o.(qty := x));
    assert Sum(Cells(n), l) == Sum(Cells(nodes), l) + x - o.qty by {
      SumAt(Cells(nodes), l, j);
      SumAt(Cells(n), l, j);
      SumFrame(Cells(nodes), Cells(n), l[..j]);
      SumFrame(Cells(nodes), Cells(n), l[j + 1..]);
    }
    Wrap(Sum(Cells(nodes), l), x - o.qty);
  }
}
