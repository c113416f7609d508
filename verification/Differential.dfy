/**
 The reference engine against the deque book of the differential test: same maker fills in the
 same order, same deque at every price, same top of book.
 */
module Differential {
  import opened Types
  import opened Queues
  import opened Reference
  import opened DequeBook
  import Ledger
  import Tops

  // ---------------------------------------------------------------- the deque view of a book

  function IdAt(cells: seq<Cell>, i: nat): nat {
    if i < |cells| && cells[i].ord.Some? then cells[i].ord.value.id else 0
  }

  function DequeOf(cells: seq<Cell>, l: seq<nat>): seq<RO> {
    seq(|l|, k requires 0 <= k < |l| => RO(IdAt(cells, l[k]), QtyAt(cells, l[k])))
  }

  function SideOf(cells: seq<Cell>, lv: Levels): Deques {
    seq(|lv|, p requires 0 <= p < |lv| => DequeOf(cells, lv[p]))
  }

  function BookOf(st: State, y: nat): PerSide<Deques>
    requires y < |st.books|
  {
    PerSide(SideOf(st.cells, st.books[y].buy), SideOf(st.cells, st.books[y].sell))
  }

  lemma BookOfGet(st: State, y: nat, s: Side)
    requires y < |st.books|
    ensures BookOf(st, y).Get(s) == SideOf(st.cells, st.books[y].Get(s))
  {
  }

  lemma BestOfView(cells: seq<Cell>, lv: Levels, s: Side)
    ensures Best(SideOf(cells, lv), s) == Best(lv, s)
  {
    BestIsBest(lv, s);
    assert forall p | 0 <= p < |lv| :: SideOf(cells, lv)[p] == [] <==> lv[p] == [];
    BestUnique(SideOf(cells, lv), s, Best(lv, s));
  }

  /** A side depends only on the cells of its own orders. */
  lemma SideOfFrame(c: seq<Cell>, c': seq<Cell>, lv: Levels)
    requires |c'| == |c| && forall p, i | 0 <= p < |lv| && i in lv[p] && i < |c| :: c'[i] == c[i]
    ensures SideOf(c', lv) == SideOf(c, lv)
  {
    forall p | 0 <= p < |lv| ensures DequeOf(c', lv[p]) == DequeOf(c, lv[p]) {
      assert forall k | 0 <= k < |lv[p]| :: lv[p][k] in lv[p];
    }
  }

  /** One level changes, and the cells of the other levels do not. */
  lemma SideOfChange(c: seq<Cell>, c': seq<Cell>, lv: Levels, p: nat, l: seq<nat>)
    requires |c'| == |c| && p < |lv|
    requires forall q, i | 0 <= q < |lv| && q != p && i in lv[q] && i < |c| :: c'[i] == c[i]
    ensures SideOf(c', lv[p := l]) == SideOf(c, lv)[p := DequeOf(c', l)]
  {
    var a, b := SideOf(c', lv[p := l]), SideOf(c, lv)[p := DequeOf(c', l)];
    forall q | 0 <= q < |lv| ensures a[q] == b[q] {
      if q != p { assert forall k | 0 <= k < |lv[q]| :: lv[q][k] in lv[q]; }
    }
  }

  lemma PositiveView(st: State, T: set<nat>, y: nat, s: Side)
    requires Inv(st, T) && y < |st.books|
    ensures Positive(SideOf(st.cells, st.books[y].Get(s)))
  {
    var lv := st.books[y].Get(s);
    forall p, k | 0 <= p < |lv| && 0 <= k < |lv[p]| ensures QtyAt(st.cells, lv[p][k]) > 0 {
      assert Q(st.books, Key(y, s, p)) == lv[p];
      assert lv[p][k] in Q(st.books, Key(y, s, p));
      assert CanRest(st.maxPrice, Ord(st, lv[p][k]));
    }
  }

  // ---------------------------------------------------------------- matching

  function MakerFills(ev: seq<Event>): seq<RefFill> {
    if ev == [] then []
    else (if ev[0].Fill? && ev[0].maker then [RefFill(ev[0].order.id, ev[0].price, ev[0].qty)] else []) + MakerFills(ev[1..])
  }

  lemma {:induction false} MakerFillsConcat(a: seq<Event>, b: seq<Event>)
    ensures MakerFills(a + b) == MakerFills(a) + MakerFills(b)
  {
    if a == [] {
      assert a + b == b;
    } else {
      TailConcat(a, b);
      MakerFillsConcat(a[1..], b);
    }
  }

  function LimitOf(o: Order): Option<int> {
    if o.otype == Limit then Some(o.price) else None
  }

  /** Which cells a hit touches. */
  lemma HitCells(st: State, t: nat)
    requires CanHit(st, t)
    ensures var r, m, x := Hit(st, t), Maker(st, t), HitQty(st, t);
            && |r.cells| == |st.cells|
            && (forall i | 0 <= i < |st.cells| && i != t && i != m :: r.cells[i] == st.cells[i])
            && (x < Ord(st, m).qty ==> IsLive(r, m) && Ord(r, m) == Less(Ord(st, m), x))
  {
  }

  /** Only the maker's own place in the opposite side shows the hit. */
  lemma HitElsewhereInSide(st: State, t: nat, q: nat, i: nat)
    requires CanHit(st, t)
    requires var (o, m) := (Ord(st, t), Maker(st, t));
             && q < |st.books[o.symbol].Get(o.side.Opposite())| && i in st.books[o.symbol].Get(o.side.Opposite())[q]
             && (q != NextPrice(st, t) || i != m)
    ensures i < |st.cells| == |Hit(st, t).cells| && Hit(st, t).cells[i] == st.cells[i]
  {
    var (o, m) := (Ord(st, t), Maker(st, t));
    HitCells(st, t);
    assert i in Q(st.books, Key(o.symbol, o.side.Opposite(), q)) && IsLive(st, i);
  }

  lemma StruckView(c: seq<Cell>, c': seq<Cell>, l: seq<nat>, x: nat, full: bool)
    requires l != [] && x <= QtyAt(c, l[0]) && full == (x == QtyAt(c, l[0]))
    requires |c'| == |c| && forall k | 1 <= k < |l| :: IdAt(c', l[k]) == IdAt(c, l[k]) && QtyAt(c', l[k]) == QtyAt(c, l[k])
    requires !full ==> IdAt(c', l[0]) == IdAt(c, l[0]) && QtyAt(c', l[0]) == QtyAt(c, l[0]) - x
    ensures DequeOf(c', if full then l[1..] else l) == Struck(DequeOf(c, l), x)
  {
    var (d, d') := (DequeOf(c, l), DequeOf(c', if full then l[1..] else l));
    if full {
      forall k | 0 <= k < |d'| ensures d'[k] == d[1..][k] {
        assert l[1..][k] == l[k + 1];
      }
    } else {
      forall k | 1 <= k < |d'| ensures d'[k] == d[k] {
      }
    }
  }

  /** The opposite side loses the fill from the front of its best deque. */
  lemma HitView(st: State, t: nat)
    requires CanHit(st, t)
    ensures var (o, m, px, x) := (Ord(st, t), Maker(st, t), NextPrice(st, t), HitQty(st, t));
            var s := o.side.Opposite();
            var d := SideOf(st.cells, st.books[o.symbol].Get(s));
            && 0 <= px < |d| && d[px] != [] && d[px][0] == RO(Ord(st, m).id, Ord(st, m).qty)
            && SideOf(Hit(st, t).cells, Hit(st, t).books[o.symbol].Get(s)) == d[px := Struck(d[px], x)]
  {
    var (o, m, px, x) := (Ord(st, t), Maker(st, t), NextPrice(st, t), HitQty(st, t));
    var s, r := o.side.Opposite(), Hit(st, t);
    var lv := st.books[o.symbol].Get(s);
    var l := lv[px];
    assert Q(st.books, Key(o.symbol, s, px)) == l && Distinct(l) && l[0] == m;
    HitCells(st, t);
    forall q, i | 0 <= q < |lv| && q != px && i in lv[q] && i < |st.cells| ensures r.cells[i] == st.cells[i] {
      HitElsewhereInSide(st, t, q, i);
    }
    forall k | 1 <= k < |l| ensures IdAt(r.cells, l[k]) == IdAt(st.cells, l[k]) && QtyAt(r.cells, l[k]) == QtyAt(st.cells, l[k]) {
      HitElsewhereInSide(st, t, px, l[k]);
    }
    var full := x == Ord(st, m).qty;
    StruckView(st.cells, r.cells, l, x, full);
    var l' := if full then l[1..] else l;
    SideOfChange(st.cells, r.cells, lv, px, l');
    assert r.books[o.symbol].Get(s) == lv[px := l'];
  }

  lemma HitOwnSide(st: State, t: nat)
    requires CanHit(st, t)
    ensures var o := Ord(st, t);
            SideOf(Hit(st, t).cells, Hit(st, t).books[o.symbol].Get(o.side)) == SideOf(st.cells, st.books[o.symbol].Get(o.side))
  {
    var o, m := Ord(st, t), Maker(st, t);
    var lv := st.books[o.symbol].Get(o.side);
    HitCells(st, t);
    forall p, i | 0 <= p < |lv| && i in lv[p] && i < |st.cells| ensures Hit(st, t).cells[i] == st.cells[i] {
      assert i in Q(st.books, Key(o.symbol, o.side, p));
    }
    SideOfFrame(st.cells, Hit(st, t).cells, lv);
  }

  lemma TakeHit(d: Deques, s: Side, limit: Option<int>, qty: nat, p: nat)
    requires Positive(d) && Best(d, s.Opposite()) == p && p < |d| && d[p] != [] && qty > 0 && Accepts(s, limit, p)
    ensures var x := Min(qty, d[p][0].qty);
            && Positive(d[p := Struck(d[p], x)])
            && (var r := Take(d[p := Struck(d[p], x)], s, limit, qty - x);
                Take(d, s, limit, qty) == Taken(r.side, r.left, [RefFill(d[p][0].id, p, x)] + r.fills))
  {
  }

  /** Matching a taker is taking from the deques. */
  lemma {:induction false} MatchTakes(st: State, t: nat)
    requires Matching(st, t)
    ensures var (o, r) := (Ord(st, t), Match(st, t));
            && |r.0.books| == |st.books| && IsLive(r.0, t)
            && Positive(SideOf(st.cells, st.books[o.symbol].Get(o.side.Opposite())))
            && Take(SideOf(st.cells, st.books[o.symbol].Get(o.side.Opposite())), o.side, LimitOf(o), o.qty)
               == Taken(SideOf(r.0.cells, r.0.books[o.symbol].Get(o.side.Opposite())), Ord(r.0, t).qty, MakerFills(r.1))
            && SideOf(r.0.cells, r.0.books[o.symbol].Get(o.side)) == SideOf(st.cells, st.books[o.symbol].Get(o.side))
    decreases Ord(st, t).qty
  {
    var o := Ord(st, t);
    var s := o.side.Opposite();
    MatchInv(st, t);
    PositiveView(st, {t}, o.symbol, s);
    BestOfView(st.cells, st.books[o.symbol].Get(s), s);
    if NextPrice(st, t) != NO_PRICE {
      HitInv(st, t);
      HitView(st, t);
      HitOwnSide(st, t);
      TakeHit(SideOf(st.cells, st.books[o.symbol].Get(s)), o.side, LimitOf(o), o.qty, NextPrice(st, t));
      MatchTakes(Hit(st, t), t);
      HitMakerFills(st, t);
      MakerFillsConcat(HitEvents(st, t), Match(Hit(st, t), t).1);
    }
  }

  /** Matching is price-time priority: it fills the resting orders of the other side in that order. */
  lemma PriceTimePriority(st: State, t: nat)
    requires Matching(st, t)
    ensures var o := Ord(st, t);
            var d := SideOf(st.cells, st.books[o.symbol].Get(o.side.Opposite()));
            FillsInOrder(MakerFills(Match(st, t).1), Priority(d, o.side.Opposite()), o.side, LimitOf(o), o.qty)
  {
    var o := Ord(st, t);
    var d := SideOf(st.cells, st.books[o.symbol].Get(o.side.Opposite()));
    MatchTakes(st, t);
    TakeWalks(d, o.side, LimitOf(o), o.qty);
    PriorityIsBestFirst(d, o.side.Opposite());
    WalkFills(Priority(d, o.side.Opposite()), o.side, LimitOf(o), o.qty);
  }

  lemma HitMakerFills(st: State, t: nat)
    requires CanHit(st, t)
    ensures MakerFills(HitEvents(st, t)) == [RefFill(Ord(st, Maker(st, t)).id, NextPrice(st, t), HitQty(st, t))]
  {
    var ev := HitEvents(st, t);
    assert ev == [ev[0]] + ([ev[1]] + [ev[2]]);
    MakerFillsConcat([ev[0]], [ev[1]] + [ev[2]]);
    MakerFillsConcat([ev[1]], [ev[2]]);
  }

  // ---------------------------------------------------------------- the test's operations

  /** Match, then rest what is left at the back of its price if it may rest. */
  function Add(b: PerSide<Deques>, id: nat, s: Side, limit: Option<int>, qty: nat, mayRest: bool): (PerSide<Deques>, seq<RefFill>)
    requires Positive(b.Get(s.Opposite())) && (limit.Some? ==> 0 <= limit.value < |b.Get(s)|)
  {
    var t := Take(b.Get(s.Opposite()), s, limit, qty);
    var b' := b.Put(s.Opposite(), t.side);
    if t.left > 0 && mayRest && limit.Some? then
      (b'.Put(s, b.Get(s)[limit.value := b.Get(s)[limit.value] + [RO(id, t.left)]]), t.fills)
    else (b', t.fills)
  }

  function DropId(l: seq<RO>, id: nat): seq<RO> {
    if l == [] then [] else if l[0].id == id then l[1..] else [l[0]] + DropId(l[1..], id)
  }

  /** Takes the order with this id off one side. */
  function Erase(d: Deques, id: nat): Deques {
    seq(|d|, p requires 0 <= p < |d| => DropId(d[p], id))
  }

  /** Sets the quantity of the order with this id, in place. */
  function Amend(l: seq<RO>, id: nat, qty: nat): seq<RO> {
    seq(|l|, k requires 0 <= k < |l| => if l[k].id == id then RO(id, qty) else l[k])
  }

  function AmendSide(d: Deques, id: nat, qty: nat): Deques {
    seq(|d|, p requires 0 <= p < |d| => Amend(d[p], id, qty))
  }

  // ---------------------------------------------------------------- resting, cancelling, amending

  lemma {:induction false} DropIdIs(c: seq<Cell>, l: seq<nat>, i: nat)
    requires forall j | j in l :: IdAt(c, j) == IdAt(c, i) ==> j == i
    ensures DropId(DequeOf(c, l), IdAt(c, i)) == DequeOf(c, Without(l, i))
  {
    if l != [] {
      assert DequeOf(c, l)[1..] == DequeOf(c, l[1..]);
      DropIdIs(c, l[1..], i);
    }
  }

  /** Live ids are distinct. */
  lemma DistinctIds(st: State, T: set<nat>, i: nat, j: nat)
    requires Inv(st, T) && IsLive(st, i) && IsLive(st, j) && Ord(st, i).id == Ord(st, j).id
    ensures i == j
  {
    Ledger.IdSlot(st, T, i);
    Ledger.IdSlot(st, T, j);
  }

  lemma DetachErases(st: State, i: nat)
    requires Inv(st, {}) && IsLive(st, i)
    ensures InBounds(st.books, KeyOf(Ord(st, i)))
    ensures var o := Ord(st, i);
            && SideOf(st.cells, Detach(st, i).books[o.symbol].Get(o.side))
               == Erase(SideOf(st.cells, st.books[o.symbol].Get(o.side)), o.id)
            && Detach(st, i).books[o.symbol].Get(o.side.Opposite()) == st.books[o.symbol].Get(o.side.Opposite())
  {
    ListedInBounds(st, {}, i);
    var o := Ord(st, i);
    var lv, lv' := st.books[o.symbol].Get(o.side), Detach(st, i).books[o.symbol].Get(o.side);
    forall p | 0 <= p < |lv| ensures DequeOf(st.cells, lv'[p]) == DropId(DequeOf(st.cells, lv[p]), o.id) {
      assert Q(st.books, Key(o.symbol, o.side, p)) == lv[p];
      forall j | j in lv[p] && IdAt(st.cells, j) == IdAt(st.cells, i) ensures j == i {
        assert j in Q(st.books, Key(o.symbol, o.side, p));
        DistinctIds(st, {}, i, j);
      }
      DropIdIs(st.cells, lv[p], i);
      if p != o.price { WithoutAbsent(lv[p], i); }
    }
  }

  lemma {:induction false} WithoutAbsent(l: seq<nat>, i: nat)
    requires i !in l
    ensures Without(l, i) == l
  {
    if l != [] { WithoutAbsent(l[1..], i); }
  }

  /** Slots in no FIFO of the book may change without showing. */
  lemma UnlistedView(st: State, r: State, y: nat, i: nat)
    requires y < |st.books| && y < |r.books| && r.books[y] == st.books[y] && |r.cells| == |st.cells|
    requires forall j | 0 <= j < |st.cells| && j != i :: r.cells[j] == st.cells[j]
    requires forall s: Side, p | 0 <= p < |st.books[y].Get(s)| :: i !in st.books[y].Get(s)[p]
    ensures BookOf(r, y) == BookOf(st, y)
  {
    assert st.books[y].Get(Buy) == st.books[y].buy && st.books[y].Get(Sell) == st.books[y].sell;
    SideOfFrame(st.cells, r.cells, st.books[y].buy);
    SideOfFrame(st.cells, r.cells, st.books[y].sell);
  }

  lemma Unlisted(st: State, T: set<nat>, i: nat, y: nat)
    requires Inv(st, T) && y < |st.books| && (i in T || !IsLive(st, i))
    ensures forall s: Side, p | 0 <= p < |st.books[y].Get(s)| :: i !in st.books[y].Get(s)[p]
  {
    forall s: Side, p | 0 <= p < |st.books[y].Get(s)| ensures i !in st.books[y].Get(s)[p] {
      assert Q(st.books, Key(y, s, p)) == st.books[y].Get(s)[p];
    }
  }

  lemma RestView(st: State, t: nat)
    requires Matching(st, t) && InBounds(st.books, KeyOf(Ord(st, t)))
    ensures var o := Ord(st, t);
            var d := SideOf(st.cells, st.books[o.symbol].Get(o.side));
            BookOf(Rest(st, t), o.symbol) == BookOf(st, o.symbol).Put(o.side, d[o.price := d[o.price] + [RO(o.id, o.qty)]])
  {
    var o := Ord(st, t);
    var lv := st.books[o.symbol].Get(o.side);
    SideOfChange(st.cells, st.cells, lv, o.price, lv[o.price] + [t]);
    assert DequeOf(st.cells, lv[o.price] + [t]) == DequeOf(st.cells, lv[o.price]) + [RO(o.id, o.qty)];
  }

  lemma SettleView(st: State, t: nat)
    requires Matching(st, t) && (Ord(st, t).otype == Limit ==> 1 <= Ord(st, t).price <= st.maxPrice)
    ensures var (o, r) := (Ord(st, t), Settle(st, t));
            var d := SideOf(st.cells, st.books[o.symbol].Get(o.side));
            && |r.0.books| == |st.books| && MakerFills(r.1) == []
            && BookOf(r.0, o.symbol) ==
               if o.qty > 0 && o.otype == Limit && o.tif == GTC
               then BookOf(st, o.symbol).Put(o.side, d[o.price := d[o.price] + [RO(o.id, o.qty)]])
               else BookOf(st, o.symbol)
  {
    var o := Ord(st, t);
    if o.qty > 0 && o.otype == Limit && o.tif == GTC {
      RestView(st, t);
    } else {
      Unlisted(st, {t}, t, o.symbol);
      UnlistedView(st, Release(st, t), o.symbol, t);
    }
  }

  lemma ReadyToAdd(st: State, T: set<nat>, y: nat, s: Side)
    requires Inv(st, T) && y < |st.books|
    ensures Positive(BookOf(st, y).Get(s)) && |BookOf(st, y).Get(s)| == st.maxPrice + 1
  {
    BookOfGet(st, y, s);
    PositiveView(st, T, y, s);
  }

  /** Matching and resting an order is the test's add. */
  lemma MatchAndRestAdds(st: State, t: nat)
    requires Matching(st, t) && CanMatch(st.maxPrice, Ord(st, t))
    ensures var (o, r) := (Ord(st, t), MatchAndRest(st, t));
            && |r.0.books| == |st.books|
            && Positive(BookOf(st, o.symbol).Get(o.side.Opposite())) && |BookOf(st, o.symbol).Get(o.side)| == st.maxPrice + 1
            && (BookOf(r.0, o.symbol), MakerFills(r.1))
               == Add(BookOf(st, o.symbol), o.id, o.side, LimitOf(o), o.qty, o.tif == GTC)
  {
    var o := Ord(st, t);
    var y, s := o.symbol, o.side;
    ReadyToAdd(st, {t}, y, s);
    ReadyToAdd(st, {t}, y, s.Opposite());
    MatchInv(st, t);
    var r := Match(st, t);
    MatchView(st, t);
    SettleView(r.0, t);
    MakerFillsConcat(r.1, Settle(r.0, t).1);
    assert MakerFills(r.1) + [] == MakerFills(r.1);
    BookOfGet(r.0, y, s);
    AddIs(BookOf(st, y), BookOf(r.0, y), BookOf(Settle(r.0, t).0, y), o.id, s, LimitOf(o), o.qty, o.tif == GTC);
  }

  /** MatchTakes, read off whole books. */
  lemma MatchView(st: State, t: nat)
    requires Matching(st, t)
    ensures var (o, r) := (Ord(st, t), Match(st, t));
            && |r.0.books| == |st.books| && IsLive(r.0, t)
            && (var (b, b1, s) := (BookOf(st, o.symbol), BookOf(r.0, o.symbol), o.side);
                && Positive(b.Get(s.Opposite())) && b1.Get(s) == b.Get(s)
                && Take(b.Get(s.Opposite()), s, LimitOf(o), o.qty)
                   == Taken(b1.Get(s.Opposite()), Ord(r.0, t).qty, MakerFills(r.1)))
  {
    var (o, r) := (Ord(st, t), Match(st, t));
    MatchTakes(st, t);
    BookOfGet(st, o.symbol, o.side);
    BookOfGet(st, o.symbol, o.side.Opposite());
    BookOfGet(r.0, o.symbol, o.side);
    BookOfGet(r.0, o.symbol, o.side.Opposite());
  }

  lemma AddIs(b: PerSide<Deques>, b1: PerSide<Deques>, b2: PerSide<Deques>, id: nat, s: Side, limit: Option<int>, qty: nat,
              mayRest: bool)
    requires Positive(b.Get(s.Opposite())) && (limit.Some? ==> 0 <= limit.value < |b.Get(s)|)
    requires b1.Get(s) == b.Get(s) && b1.Get(s.Opposite()) == Take(b.Get(s.Opposite()), s, limit, qty).side
    requires var left := Take(b.Get(s.Opposite()), s, limit, qty).left;
             b2 == if left > 0 && mayRest && limit.Some?
                   then b1.Put(s, b1.Get(s)[limit.value := b1.Get(s)[limit.value] + [RO(id, left)]])
                   else b1
    ensures (b2, Take(b.Get(s.Opposite()), s, limit, qty).fills) == Add(b, id, s, limit, qty, mayRest)
  {
  }

  // ---------------------------------------------------------------- refusals

  /** Why a command is refused, if it is: the checks in the order the engine makes them. */
  function Verdict(st: State, c: Command): Option<Reason> {
    match c
    case New(_, _, symbol, _, otype, _, price, qty) =>
      if symbol >= |st.books| then Some(BadSymbol)
      else if qty == 0 then Some(BadQty)
      else if otype == Limit && !(1 <= price <= st.maxPrice) then Some(BadPrice)
      else if st.free == [] then Some(BookFull)
      else None
    case Cancel(session, _, id) => Ownership(st, session, id)
    case Replace(session, _, id, price, qty) =>
      var v := Ownership(st, session, id);
      if v.Some? then v
      else if qty == 0 then Some(BadQty)
      else if !(1 <= price <= st.maxPrice) then Some(BadPrice)
      else None
  }

  function Ownership(st: State, session: U32, id: nat): Option<Reason> {
    var f := Find(st, id);
    if f.None? then Some(UnknownOrder) else if Ord(st, f.value).session != session then Some(NotOwner) else None
  }

  /** A refused command emits its one Rejected event and leaves the whole state as it was. */
  lemma RefusedChangesNothing(st: State, c: Command)
    requires Inv(st, {}) && Verdict(st, c).Some?
    ensures Step(st, c) == (st, [Reject(c, Verdict(st, c).value)])
  {
    var e := Reject(c, Verdict(st, c).value);
    assert [e] + [] == [e];
  }

  // ---------------------------------------------------------------- commands

  /** An order as the reference sees it. */
  datatype Resting = Resting(id: nat, side: Side, price: int, qty: nat)

  function AsResting(o: Order): Resting {
    Resting(o.id, o.side, o.price, o.qty)
  }

  /** What an accepted command does to the deque book; `o` is the order it creates or names. */
  function Model(b: PerSide<Deques>, c: Command, o: Resting): (PerSide<Deques>, seq<RefFill>)
    requires forall s: Side :: Positive(b.Get(s))
    requires c.New? && c.otype == Limit ==> 0 <= c.price < |b.Get(c.side)|
    requires c.Replace? ==> 0 <= c.price < |b.Get(o.side)|
  {
    match c
    case New(_, _, _, side, otype, tif, price, qty) =>
      Add(b, o.id, side, if otype == Limit then Some(price) else None, qty, tif == GTC)
    case Cancel(_, _, _) => (b.Put(o.side, Erase(b.Get(o.side), o.id)), [])
    case Replace(_, _, _, price, qty) =>
      if price == o.price && qty <= o.qty then (b.Put(o.side, AmendSide(b.Get(o.side), o.id, qty)), [])
      else
        var b' := b.Put(o.side, Erase(b.Get(o.side), o.id));
        assert b'.Get(o.side.Opposite()) == b.Get(o.side.Opposite());
        Add(b', o.id, o.side, Some(price), qty, true)
  }

  lemma NoFill(e: Event, ev: seq<Event>)
    requires !e.Fill?
    ensures MakerFills([e] + ev) == MakerFills(ev) && MakerFills(ev + [e]) == MakerFills(ev)
  {
    assert MakerFills([e]) == [] by { assert [e][1..] == []; }
    MakerFillsConcat([e], ev);
    MakerFillsConcat(ev, [e]);
    assert [] + MakerFills(ev) == MakerFills(ev) && MakerFills(ev) + [] == MakerFills(ev);
  }

  /** The order an accepted command creates or names. */
  function Subject(st: State, c: Command): (o: Order)
    requires Inv(st, {}) && Verdict(st, c).None?
    ensures o.symbol < |st.books| && (c.New? ==> o.symbol == c.symbol)
  {
    if c.New? then
      AllocInv(st, OrderFor(c));
      OrderFor(c).(id := st.cells[st.free[0]].gen * TWO32 + st.free[0])
    else Ord(st, Find(st, c.id).value)
  }

  lemma NewModelled(st: State, c: Command)
    requires Inv(st, {}) && c.New? && Verdict(st, c).None?
    ensures |OnNew(st, c).0.books| == |st.books|
    ensures OnNew(st, c).1 != [] && OnNew(st, c).1[0] == Accepted(Subject(st, c))
    ensures forall s: Side :: Positive(BookOf(st, c.symbol).Get(s)) && |BookOf(st, c.symbol).Get(s)| == st.maxPrice + 1
    ensures (BookOf(OnNew(st, c).0, c.symbol), MakerFills(OnNew(st, c).1))
         == Model(BookOf(st, c.symbol), c, AsResting(Subject(st, c)))
  {
    forall s: Side ensures Positive(BookOf(st, c.symbol).Get(s)) && |BookOf(st, c.symbol).Get(s)| == st.maxPrice + 1 {
      ReadyToAdd(st, {}, c.symbol, s);
    }
    AllocInv(st, OrderFor(c));
    var t, a := st.free[0], Alloc(st, OrderFor(c));
    assert t in st.free;
    Unlisted(st, {}, t, c.symbol);
    UnlistedView(st, a, c.symbol, t);
    MatchAndRestAdds(a, t);
    NoFill(Accepted(Ord(a, t)), MatchAndRest(a, t).1);
  }

  lemma DetachedBook(st: State, r: State, i: nat)
    requires Inv(st, {}) && IsLive(st, i) && InBounds(st.books, KeyOf(Ord(st, i)))
    requires r.books == Detach(st, i).books && |r.cells| == |st.cells|
    requires forall j | 0 <= j < |st.cells| && j != i :: r.cells[j] == st.cells[j]
    ensures var o := Ord(st, i);
            BookOf(r, o.symbol) == BookOf(st, o.symbol).Put(o.side, Erase(BookOf(st, o.symbol).Get(o.side), o.id))
  {
    var o := Ord(st, i);
    DetachInv(st, {}, i);
    DetachErases(st, i);
    Unlisted(Detach(st, i), {} + {i}, i, o.symbol);
    UnlistedView(Detach(st, i), r, o.symbol, i);
    BookOfGet(st, o.symbol, o.side);
    BookOfGet(Detach(st, i), o.symbol, o.side);
    BookOfGet(st, o.symbol, o.side.Opposite());
    BookOfGet(Detach(st, i), o.symbol, o.side.Opposite());
  }

  lemma AmendedBook(st: State, i: nat, qty: U32)
    requires Inv(st, {}) && IsLive(st, i)
    ensures var o := Ord(st, i);
            BookOf(SetOrd(st, i, o.(qty := qty)), o.symbol)
            == BookOf(st, o.symbol).Put(o.side, AmendSide(BookOf(st, o.symbol).Get(o.side), o.id, qty))
  {
    var o := Ord(st, i);
    var r := SetOrd(st, i, o.(qty := qty));
    var lv, ov := st.books[o.symbol].Get(o.side), st.books[o.symbol].Get(o.side.Opposite());
    forall p | 0 <= p < |lv| ensures DequeOf(r.cells, lv[p]) == Amend(DequeOf(st.cells, lv[p]), o.id, qty) {
      forall k | 0 <= k < |lv[p]|
        ensures RO(IdAt(r.cells, lv[p][k]), QtyAt(r.cells, lv[p][k]))
             == if IdAt(st.cells, lv[p][k]) == o.id then RO(o.id, qty)
                else RO(IdAt(st.cells, lv[p][k]), QtyAt(st.cells, lv[p][k]))
      {
        var j := lv[p][k];
        assert j in Q(st.books, Key(o.symbol, o.side, p)) && IsLive(st, j);
        if IdAt(st.cells, j) == o.id { DistinctIds(st, {}, i, j); }
      }
    }
    assert SideOf(r.cells, lv) == AmendSide(SideOf(st.cells, lv), o.id, qty);
    forall p, j | 0 <= p < |ov| && j in ov[p] && j < |st.cells| ensures r.cells[j] == st.cells[j] {
      assert j in Q(st.books, Key(o.symbol, o.side.Opposite(), p));
    }
    SideOfFrame(st.cells, r.cells, ov);
    BookOfGet(st, o.symbol, o.side);
    BookOfGet(r, o.symbol, o.side);
    BookOfGet(st, o.symbol, o.side.Opposite());
    BookOfGet(r, o.symbol, o.side.Opposite());
  }

  lemma BookReady(st: State, y: nat)
    requires Inv(st, {}) && y < |st.books|
    ensures forall s: Side :: Positive(BookOf(st, y).Get(s)) && |BookOf(st, y).Get(s)| == st.maxPrice + 1
  {
    forall s: Side ensures Positive(BookOf(st, y).Get(s)) && |BookOf(st, y).Get(s)| == st.maxPrice + 1 {
      ReadyToAdd(st, {}, y, s);
    }
  }

  lemma CancelModelled(st: State, c: Command, i: nat)
    requires Inv(st, {}) && IsLive(st, i) && c.Cancel?
    ensures var y := Ord(st, i).symbol;
            && |OnCancel(st, i).0.books| == |st.books|
            && (forall s: Side :: Positive(BookOf(st, y).Get(s)))
            && (BookOf(OnCancel(st, i).0, y), MakerFills(OnCancel(st, i).1)) == Model(BookOf(st, y), c, AsResting(Ord(st, i)))
  {
    BookReady(st, Ord(st, i).symbol);
    ListedInBounds(st, {}, i);
    DetachedBook(st, OnCancel(st, i).0, i);
    NoFill(Cancelled(Ord(st, i)), []);
    assert [Cancelled(Ord(st, i))] + [] == [Cancelled(Ord(st, i))];
  }

  lemma ReplaceModelled(st: State, c: Command, i: nat)
    requires Inv(st, {}) && IsLive(st, i) && c.Replace? && Replaceable(st, c)
    ensures var y := Ord(st, i).symbol;
            && |OnReplace(st, c, i).0.books| == |st.books|
            && (forall s: Side :: Positive(BookOf(st, y).Get(s)) && |BookOf(st, y).Get(s)| == st.maxPrice + 1)
            && (BookOf(OnReplace(st, c, i).0, y), MakerFills(OnReplace(st, c, i).1))
               == Model(BookOf(st, y), c, AsResting(Ord(st, i)))
  {
    var o := Ord(st, i);
    var o' := Revised(o, c);
    BookReady(st, o.symbol);
    if KeepsPlace(o, c) {
      assert o' == o.(qty := c.qty);
      AmendedBook(st, i, c.qty);
      NoFill(Replaced(o'), []);
      assert [Replaced(o')] + [] == [Replaced(o')];
    } else {
      ReplaceInv(st, i, o');
      var a := SetOrd(Detach(st, i), i, o');
      assert CanRest(st.maxPrice, o);
      DetachedBook(st, a, i);
      MatchAndRestAdds(a, i);
      NoFill(Replaced(o'), MatchAndRest(a, i).1);
    }
  }

  function SlotOf(st: State, c: Command): nat
    requires Verdict(st, c).None?
  {
    if c.New? then 0 else Find(st, c.id).value
  }

  lemma ActModelled(st: State, c: Command)
    requires Inv(st, {}) && Verdict(st, c).None?
    ensures var (o, r) := (Subject(st, c), Act(st, c, SlotOf(st, c)));
            && o.symbol < |st.books| && |r.0.books| == |st.books|
            && (forall s: Side :: Positive(BookOf(st, o.symbol).Get(s)) && |BookOf(st, o.symbol).Get(s)| == st.maxPrice + 1)
            && (BookOf(r.0, o.symbol), MakerFills(r.1)) == Model(BookOf(st, o.symbol), c, AsResting(o))
  {
    BookReady(st, Subject(st, c).symbol);
    match c {
      case New(_, _, _, _, _, _, _, _) => NewModelled(st, c);
      case Cancel(_, _, _) => CancelModelled(st, c, SlotOf(st, c));
      case Replace(_, _, _, _, _) => ReplaceModelled(st, c, SlotOf(st, c));
    }
  }

  lemma WithTopFills(st: State, y: nat, a: (State, seq<Event>))
    requires y < |st.books| && y < |a.0.books|
    ensures MakerFills(WithTop(st, y, a).1) == MakerFills(a.1)
  {
    if TopOf(a.0, y) != TopOf(st, y) {
      NoFill(Top(y, TopOf(a.0, y)), a.1);
    } else {
      assert a.1 + [] == a.1;
    }
  }

  /** Every accepted command does to its book what the reference does when told the order it names. */
  lemma StepOnBook(st: State, c: Command)
    requires Inv(st, {}) && Verdict(st, c).None?
    ensures var (o, r) := (Subject(st, c), Step(st, c));
            && o.symbol < |st.books| && |r.0.books| == |st.books|
            && (forall s: Side :: Positive(BookOf(st, o.symbol).Get(s)) && |BookOf(st, o.symbol).Get(s)| == st.maxPrice + 1)
            && (BookOf(r.0, o.symbol), MakerFills(r.1)) == Model(BookOf(st, o.symbol), c, AsResting(o))
  {
    var (o, a) := (Subject(st, c), Act(st, c, SlotOf(st, c)));
    ActModelled(st, c);
    assert Step(st, c) == WithTop(st, o.symbol, a);
    WithTopFills(st, o.symbol, a);
  }

  lemma ElsewhereView(st: State, r: State, symbol: nat, y: nat)
    requires Inv(st, {}) && SameElsewhere(st, r, symbol) && y < |st.books| && y != symbol
    ensures BookOf(r, y) == BookOf(st, y)
  {
    forall s: Side ensures SideOf(r.cells, st.books[y].Get(s)) == SideOf(st.cells, st.books[y].Get(s)) {
      var lv := st.books[y].Get(s);
      forall p, j | 0 <= p < |lv| && j in lv[p] && j < |st.cells| ensures r.cells[j] == st.cells[j] {
        assert j in Q(st.books, Key(y, s, p));
      }
      SideOfFrame(st.cells, r.cells, lv);
    }
    assert st.books[y].Get(Buy) == st.books[y].buy && st.books[y].Get(Sell) == st.books[y].sell;
  }

  /** The books of the other symbols do not move. */
  lemma OtherBooksUntouched(st: State, c: Command, y: nat)
    requires Inv(st, {}) && Verdict(st, c).None? && y < |st.books| && y != Subject(st, c).symbol
    ensures |Step(st, c).0.books| == |st.books| && BookOf(Step(st, c).0, y) == BookOf(st, y)
  {
    var i := SlotOf(st, c);
    ActInv(st, c, i);
    Tops.ActElsewhere(st, c, i);
    ElsewhereView(st, Act(st, c, i).0, Subject(st, c).symbol, y);
    assert Step(st, c).0 == Act(st, c, i).0;
  }

  // ---------------------------------------------------------------- top of book

  function QtySum(l: seq<RO>): nat {
    if l == [] then 0 else l[0].qty + QtySum(l[1..])
  }

  function TopQty(d: Deques, s: Side): nat {
    var p := Best(d, s);
    BestIsBest(d, s);
    if p == NO_PRICE then 0 else QtySum(d[p])
  }

  lemma {:induction false} QtySumIs(c: seq<Cell>, l: seq<nat>)
    ensures QtySum(DequeOf(c, l)) == Sum(c, l)
  {
    if l != [] {
      assert DequeOf(c, l)[1..] == DequeOf(c, l[1..]);
      QtySumIs(c, l[1..]);
    }
  }

  /** The reported top is the deque book's top, with quantities exact below 2^32 and wrapped above. */
  lemma TopModelled(st: State, y: nat)
    requires Inv(st, {}) && y < |st.books|
    ensures var (b, t) := (BookOf(st, y), TopOf(st, y));
            && t.bid == Best(b.buy, Buy) && t.ask == Best(b.sell, Sell)
            && t.bidQty == TopQty(b.buy, Buy) % TWO32 && t.askQty == TopQty(b.sell, Sell) % TWO32
  {
    forall s: Side ensures Best(BookOf(st, y).Get(s), s) == Best(st.books[y].Get(s), s)
                        && BestQty(st, y, s) == TopQty(BookOf(st, y).Get(s), s) % TWO32
    {
      var lv := st.books[y].Get(s);
      BookOfGet(st, y, s);
      BestOfView(st.cells, lv, s);
      BestIsBest(lv, s);
      var p := Best(lv, s);
      if p != NO_PRICE { QtySumIs(st.cells, lv[p]); }
    }
    assert BookOf(st, y).Get(Buy) == BookOf(st, y).buy && BookOf(st, y).Get(Sell) == BookOf(st, y).sell;
    assert st.books[y].Get(Buy) == st.books[y].buy && st.books[y].Get(Sell) == st.books[y].sell;
  }
}
