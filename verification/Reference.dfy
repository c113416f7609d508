/**
 The reference engine: the command state machine over plain values.

 A book is the FIFO of each side and price. There are no links, no bitmap, no cached best prices
 and no level totals; the pool is a table of cells and a stack of free slots. The classes
 OrderPool, Book and Engine are proved to compute exactly this.
 */
module Reference {
  import opened Types
  import opened Queues

  /** One pool slot: its generation and the order living in it, if any. */
  datatype Cell = Cell(gen: nat, ord: Option<Order>)

  datatype State = State(maxPrice: nat, cells: seq<Cell>, books: Books, free: seq<nat>)

  predicate IsLive(st: State, i: int) {
    0 <= i < |st.cells| && st.cells[i].ord.Some?
  }

  function Ord(st: State, i: int): Order
    requires IsLive(st, i)
  {
    st.cells[i].ord.value
  }

  function KeyOf(o: Order): Key {
    Key(o.symbol, o.side, o.price)
  }

  // ---------------------------------------------------------------- top of book

  function QtyAt(cells: seq<Cell>, i: nat): nat {
    if i < |cells| && cells[i].ord.Some? then cells[i].ord.value.qty else 0
  }

  function Sum(cells: seq<Cell>, l: seq<nat>): nat {
    if l == [] then 0 else QtyAt(cells, l[0]) + Sum(cells, l[1..])
  }

  lemma {:induction false} SumFrame(c: seq<Cell>, c': seq<Cell>, l: seq<nat>)
    requires forall i | i in l :: QtyAt(c, i) == QtyAt(c', i)
    ensures Sum(c, l) == Sum(c', l)
  {
    if l != [] { SumFrame(c, c', l[1..]); }
  }

  function BestQty(st: State, y: nat, s: Side): nat
    requires y < |st.books|
  {
    var p := Best(st.books[y].Get(s), s);
    if p == NO_PRICE then 0 else Sum(st.cells, Q(st.books, Key(y, s, p))) % TWO32
  }

  /** Best prices with the total resting there; quantities are 32 bits wide and wrap. */
  function TopOf(st: State, y: nat): TopOfBook
    requires y < |st.books|
  {
    TopOfBook(Best(st.books[y].buy, Buy), Best(st.books[y].sell, Sell), BestQty(st, y, Buy), BestQty(st, y, Sell))
  }

  // ---------------------------------------------------------------- invariant

  /**
   `T` holds the slots that are live but rest in no FIFO: the order being matched, and a maker
   between leaving its FIFO and being freed. It is empty between commands.
   */
  ghost predicate Inv(st: State, T: set<nat>) {
    && Shape(st)
    && CellsOk(st, T)
    && Listed(st, T)
    && Complete(st, T)
    && FreeOk(st)
    && Total(st.books) + |st.free| + |T| == |st.cells|
    && Uncrossed(st.books)
    && (forall i | i in T :: IsLive(st, i))
  }

  ghost predicate Shape(st: State) {
    && |st.cells| <= NULL
    && |st.books| <= 0xFFFF
    && forall y, s | 0 <= y < |st.books| :: |st.books[y].Get(s)| == st.maxPrice + 1
  }

  predicate CanRest(maxPrice: nat, o: Order) {
    o.qty > 0 && o.otype == Limit && o.tif == GTC && 1 <= o.price <= maxPrice
  }

  /** Ids are the generation and the slot; everything at rest is a good-till-cancelled limit order. */
  ghost predicate CellsOk(st: State, T: set<nat>) {
    forall i | 0 <= i < |st.cells| ::
      && 1 <= st.cells[i].gen < TWO32
      && (IsLive(st, i) ==>
            && Ord(st, i).id == st.cells[i].gen * TWO32 + i
            && Ord(st, i).symbol < |st.books|
            && (i !in T ==> CanRest(st.maxPrice, Ord(st, i))))
  }

  /** Every listed slot holds a live order of that symbol, side and price, once. */
  ghost predicate Listed(st: State, T: set<nat>) {
    && (forall k: Key :: Distinct(Q(st.books, k)))
    && (forall k: Key, i: nat | i in Q(st.books, k) ::
          i !in T && IsLive(st, i) && KeyOf(Ord(st, i)) == k)
  }

  /** Every live order outside `T` is listed. */
  ghost predicate Complete(st: State, T: set<nat>) {
    forall i | IsLive(st, i) && i !in T :: i in Q(st.books, KeyOf(Ord(st, i)))
  }

  /** The free stack holds exactly the slots without a live order, once each. */
  ghost predicate FreeOk(st: State) {
    && Distinct(st.free)
    && (forall i: nat :: i in st.free <==> i < |st.cells| && !IsLive(st, i))
  }

  /** On every book the bids are strictly below the asks. */
  ghost predicate Uncrossed(b: Books) {
    forall y: nat, p, q | Q(b, Key(y, Buy, p)) != [] && Q(b, Key(y, Sell, q)) != [] :: p < q
  }

  /** A taker at this price trades with a resting order at that one. */
  predicate Crosses(s: Side, takerPrice: int, bookPrice: int) {
    if s == Buy then takerPrice >= bookPrice else takerPrice <= bookPrice
  }

  // ---------------------------------------------------------------- primitive updates

  function SetOrd(st: State, i: nat, o: Order): State
    requires i < |st.cells|
  {
    st.(cells := st.cells[i := st.cells[i].(ord := Some(o))])
  }

  /** The generation after a slot is freed: 32 bits, skipping 0. */
  function NextGen(gen: nat): nat {
    var g := (gen + 1) % TWO32;
    if g != 0 then g else 1
  }

  function Release(st: State, i: nat): State
    requires i < |st.cells|
  {
    st.(cells := st.cells[i := Cell(NextGen(st.cells[i].gen), None)], free := [i] + st.free)
  }

  function Alloc(st: State, o: Order): State
    requires st.free != [] && st.free[0] < |st.cells|
  {
    var i := st.free[0];
    SetOrd(st, i, o.(id := st.cells[i].gen * TWO32 + i)).(free := st.free[1..])
  }

  function Detach(st: State, i: nat): State
    requires IsLive(st, i) && InBounds(st.books, KeyOf(Ord(st, i)))
  {
    var k := KeyOf(Ord(st, i));
    st.(books := SetQ(st.books, k, Without(Q(st.books, k), i)))
  }

  function Rest(st: State, i: nat): State
    requires IsLive(st, i) && InBounds(st.books, KeyOf(Ord(st, i)))
  {
    var k := KeyOf(Ord(st, i));
    st.(books := SetQ(st.books, k, Q(st.books, k) + [i]))
  }

  lemma ListedInBounds(st: State, T: set<nat>, i: nat)
    requires Inv(st, T) && IsLive(st, i) && i !in T
    ensures InBounds(st.books, KeyOf(Ord(st, i))) && i in Q(st.books, KeyOf(Ord(st, i)))
  {
  }

  /** An order outside every FIFO may take any terms; one at rest may change its quantity. */
  lemma SetOrdInv(st: State, T: set<nat>, i: nat, o: Order)
    requires Inv(st, T) && IsLive(st, i)
    requires o.id == Ord(st, i).id && o.symbol == Ord(st, i).symbol
    requires i in T || (KeyOf(o) == KeyOf(Ord(st, i)) && CanRest(st.maxPrice, o))
    ensures Inv(SetOrd(st, i, o), T)
  {
    var r := SetOrd(st, i, o);
    assert forall j :: IsLive(r, j) == IsLive(st, j);
    assert forall j | IsLive(r, j) && j != i :: Ord(r, j) == Ord(st, j);
  }

  /** Replacing one FIFO, when what leaves and what enters it is exactly the change of `T`. */
  lemma Requeue(st: State, T: set<nat>, k: Key, l: seq<nat>, T': set<nat>)
    requires Inv(st, T) && InBounds(st.books, k) && Distinct(l)
    requires forall i | i in l :: i !in T' && IsLive(st, i) && KeyOf(Ord(st, i)) == k
    requires forall i | i in T' && i !in T :: IsLive(st, i) && KeyOf(Ord(st, i)) == k && i in Q(st.books, k)
    requires forall i | IsLive(st, i) && i !in T' && KeyOf(Ord(st, i)) == k :: i in l
    requires forall i | i in T && i !in T' :: KeyOf(Ord(st, i)) == k
    ensures var r := st.(books := SetQ(st.books, k, l)); Listed(r, T') && Complete(r, T')
  {
    var r := st.(books := SetQ(st.books, k, l));
    forall k', i: nat | i in Q(r.books, k')
      ensures i !in T' && IsLive(r, i) && KeyOf(Ord(r, i)) == k'
    {
    }
    forall i | IsLive(r, i) && i !in T'
      ensures i in Q(r.books, KeyOf(Ord(r, i)))
    {
    }
  }

  lemma DetachInv(st: State, T: set<nat>, i: nat)
    requires Inv(st, T) && IsLive(st, i) && i !in T
    ensures InBounds(st.books, KeyOf(Ord(st, i)))
    ensures Inv(Detach(st, i), T + {i})
  {
    var k := KeyOf(Ord(st, i));
    var l := Q(st.books, k);
    WithoutFacts(l, i);
    Requeue(st, T, k, Without(l, i), T + {i});
    TotalSetQ(st.books, k, Without(l, i));
    UncrossedSetQ(st.books, k, Without(l, i));
  }

  lemma UncrossedSetQ(b: Books, k: Key, l: seq<nat>)
    requires Uncrossed(b) && InBounds(b, k)
    requires Q(b, k) == [] && l != [] ==>
               forall p | Crosses(k.side, k.price, p) :: Q(b, Key(k.symbol, k.side.Opposite(), p)) == []
    ensures Uncrossed(SetQ(b, k, l))
  {
    var r := SetQ(b, k, l);
    forall y: nat, p, q | Q(r, Key(y, Buy, p)) != [] && Q(r, Key(y, Sell, q)) != []
      ensures p < q
    {
      assert Q(b, Key(y, Buy, p)) == [] ==> k == Key(y, Buy, p) && k.side.Opposite() == Sell;
      assert Q(b, Key(y, Sell, q)) == [] ==> k == Key(y, Sell, q) && k.side.Opposite() == Buy;
    }
  }

  lemma ReleaseInv(st: State, T: set<nat>, i: nat)
    requires Inv(st, T) && i in T
    ensures Inv(Release(st, i), T - {i})
  {
    var r := Release(st, i);
    assert forall j | j != i :: IsLive(r, j) == IsLive(st, j);
    assert forall j: nat :: j in r.free <==> j == i || j in st.free;
  }

  lemma AllocFree(st: State, o: Order)
    requires FreeOk(st) && st.free != []
    ensures var i := st.free[0]; i < |st.cells| && !IsLive(st, i) && FreeOk(Alloc(st, o))
  {
    var i := st.free[0];
    assert i in st.free;
    assert st.free == [i] + st.free[1..];
    assert forall j: nat :: j in st.free <==> j == i || j in Alloc(st, o).free;
  }

  lemma AllocLists(st: State, o: Order)
    requires Inv(st, {}) && st.free != [] && st.free[0] < |st.cells| && !IsLive(st, st.free[0]) && o.symbol < |st.books|
    ensures var (r, i) := (Alloc(st, o), st.free[0]); CellsOk(r, {i}) && Listed(r, {i}) && Complete(r, {i})
  {
    var r, i := Alloc(st, o), st.free[0];
    assert forall j | j != i :: IsLive(r, j) == IsLive(st, j);
  }

  lemma AllocInv(st: State, o: Order)
    requires Inv(st, {}) && st.free != [] && o.symbol < |st.books|
    ensures st.free[0] < |st.cells| && Matching(Alloc(st, o), st.free[0])
  {
    AllocFree(st, o);
    AllocLists(st, o);
  }

  /** No FIFO on the other side would trade with the order. */
  ghost predicate NoneCrossing(st: State, o: Order) {
    forall p | Crosses(o.side, o.price, p) :: Q(st.books, Key(o.symbol, o.side.Opposite(), p)) == []
  }

  lemma RestInv(st: State, i: nat)
    requires Inv(st, {i}) && CanRest(st.maxPrice, Ord(st, i)) && NoneCrossing(st, Ord(st, i))
    ensures InBounds(st.books, KeyOf(Ord(st, i)))
    ensures Inv(Rest(st, i), {})
  {
    var k := KeyOf(Ord(st, i));
    var l := Q(st.books, k) + [i];
    assert i !in Q(st.books, k);
    Requeue(st, {i}, k, l, {});
    TotalSetQ(st.books, k, l);
    UncrossedSetQ(st.books, k, l);
  }

  // ---------------------------------------------------------------- matching

  /** The price the taker would trade at next, or NO_PRICE if it must stop. */
  function NextPrice(st: State, t: nat): int
    requires IsLive(st, t) && Ord(st, t).symbol < |st.books|
  {
    var o := Ord(st, t);
    var s := o.side.Opposite();
    var px := Best(st.books[o.symbol].Get(s), s);
    if o.qty == 0 || px == NO_PRICE || (o.otype == Limit && !Crosses(o.side, o.price, px)) then NO_PRICE
    else px
  }

  /** The order in slot `t` is being matched; everything else is in place. */
  ghost predicate Matching(st: State, t: nat) {
    Inv(st, {t}) && IsLive(st, t) && Ord(st, t).symbol < |st.books|
  }

  ghost predicate CanHit(st: State, t: nat) {
    Matching(st, t) && NextPrice(st, t) != NO_PRICE
  }

  /** The oldest order at the best opposite price. */
  function Maker(st: State, t: nat): (m: nat)
    requires CanHit(st, t)
    ensures m != t && IsLive(st, m) && Ord(st, m).qty > 0 && InBounds(st.books, KeyOf(Ord(st, m)))
    ensures KeyOf(Ord(st, m)) == Key(Ord(st, t).symbol, Ord(st, t).side.Opposite(), NextPrice(st, t))
    ensures Q(st.books, KeyOf(Ord(st, m))) != [] && Q(st.books, KeyOf(Ord(st, m)))[0] == m
  {
    var o := Ord(st, t);
    var k := Key(o.symbol, o.side.Opposite(), NextPrice(st, t));
    BestIsBest(st.books[o.symbol].Get(k.side), k.side);
    assert Q(st.books, k)[0] in Q(st.books, k);
    Q(st.books, k)[0]
  }

  function HitQty(st: State, t: nat): (x: nat)
    requires CanHit(st, t)
    ensures 0 < x <= Ord(st, t).qty && x <= Ord(st, Maker(st, t)).qty
  {
    Min(Ord(st, t).qty, Ord(st, Maker(st, t)).qty)
  }

  function Less(o: Order, x: nat): Order
    requires x <= o.qty
  {
    o.(qty := o.qty - x)
  }

  /** One fill: both quantities drop, and a maker with nothing left leaves the book and the pool. */
  function Hit(st: State, t: nat): State
    requires CanHit(st, t)
  {
    var m, x := Maker(st, t), HitQty(st, t);
    var r := SetOrd(SetOrd(st, t, Less(Ord(st, t), x)), m, Less(Ord(st, m), x));
    if Ord(r, m).qty == 0 then Release(Detach(r, m), m) else r
  }

  /** A fill reports the maker, the taker and the trade, in that order, with both remainders updated. */
  function FillEvents(o: Order, mo: Order, px: int, x: nat): seq<Event>
    requires x <= o.qty && x <= mo.qty
  {
    [Fill(Less(mo, x), true, px, x), Fill(Less(o, x), false, px, x), Trade(o.symbol, o.side, px, x)]
  }

  function HitEvents(st: State, t: nat): seq<Event>
    requires CanHit(st, t)
  {
    FillEvents(Ord(st, t), Ord(st, Maker(st, t)), NextPrice(st, t), HitQty(st, t))
  }

  /** Work on one symbol leaves the other books and their orders alone. */
  ghost predicate SameElsewhere(st: State, r: State, symbol: nat) {
    && |r.books| == |st.books| && r.maxPrice == st.maxPrice && |r.cells| == |st.cells|
    && (forall y | 0 <= y < |st.books| && y != symbol :: r.books[y] == st.books[y])
    && (forall i | IsLive(st, i) && Ord(st, i).symbol != symbol :: r.cells[i] == st.cells[i])
  }

  lemma HitInv(st: State, t: nat)
    requires CanHit(st, t)
    ensures Matching(Hit(st, t), t)
    ensures Ord(Hit(st, t), t) == Less(Ord(st, t), HitQty(st, t))
  {
    var m, x := Maker(st, t), HitQty(st, t);
    var a := SetOrd(st, t, Less(Ord(st, t), x));
    SetOrdInv(st, {t}, t, Less(Ord(st, t), x));
    if Ord(st, m).qty > x {
      SetOrdInv(a, {t}, m, Less(Ord(st, m), x));
    } else {
      DetachInv(a, {t}, m);
      SetOrdInv(Detach(a, m), {t, m}, m, Less(Ord(st, m), x));
      var b := SetOrd(Detach(a, m), m, Less(Ord(st, m), x));
      assert {t} + {m} == {t, m} && {t, m} - {m} == {t};
      ReleaseInv(b, {t, m}, m);
    }
  }

  lemma HitElsewhere(st: State, t: nat)
    requires CanHit(st, t)
    ensures SameElsewhere(st, Hit(st, t), Ord(st, t).symbol)
  {
  }

  function Match(st: State, t: nat): (State, seq<Event>)
    requires Matching(st, t)
    decreases Ord(st, t).qty
  {
    if NextPrice(st, t) == NO_PRICE then (st, [])
    else
      HitInv(st, t);
      var r := Match(Hit(st, t), t);
      (r.0, HitEvents(st, t) + r.1)
  }

  lemma {:induction false} MatchInv(st: State, t: nat)
    requires Matching(st, t)
    ensures var r := Match(st, t).0;
            && Matching(r, t) && NextPrice(r, t) == NO_PRICE
            && Ord(r, t).qty <= Ord(st, t).qty && Ord(r, t) == Ord(st, t).(qty := Ord(r, t).qty)
            && SameElsewhere(st, r, Ord(st, t).symbol)
    decreases Ord(st, t).qty
  {
    if NextPrice(st, t) != NO_PRICE {
      HitInv(st, t);
      HitElsewhere(st, t);
      MatchInv(Hit(st, t), t);
    }
  }

  /** What is left of a matched order: nothing, a cancelled remainder, or a resting order. */
  function Settle(st: State, t: nat): (State, seq<Event>)
    requires IsLive(st, t) && (Ord(st, t).otype == Limit ==> InBounds(st.books, KeyOf(Ord(st, t))))
  {
    var o := Ord(st, t);
    if o.qty == 0 then (Release(st, t), [])
    else if o.otype == Market || o.tif == IOC then (Release(st, t), [Cancelled(o)])
    else (Rest(st, t), [])
  }

  /** The terms under which an order may enter matching. */
  predicate CanMatch(maxPrice: nat, o: Order) {
    o.qty > 0 && (o.otype == Limit ==> 1 <= o.price <= maxPrice)
  }

  function MatchAndRest(st: State, t: nat): (State, seq<Event>)
    requires Matching(st, t) && CanMatch(st.maxPrice, Ord(st, t))
  {
    MatchInv(st, t);
    var r := Match(st, t);
    var f := Settle(r.0, t);
    (f.0, r.1 + f.1)
  }

  lemma MatchAndRestInv(st: State, t: nat)
    requires Matching(st, t) && CanMatch(st.maxPrice, Ord(st, t))
    ensures var r := MatchAndRest(st, t).0;
            Inv(r, {}) && |r.books| == |st.books| && r.maxPrice == st.maxPrice
  {
    MatchInv(st, t);
    var r := Match(st, t).0;
    var o := Ord(r, t);
    assert {t} - {t} == {};
    if o.qty == 0 || o.otype == Market || o.tif == IOC {
      ReleaseInv(r, {t}, t);
    } else {
      BestIsBest(r.books[o.symbol].Get(o.side.Opposite()), o.side.Opposite());
      RestInv(r, t);
    }
  }

  // ---------------------------------------------------------------- commands

  function Find(st: State, id: nat): Option<nat> {
    var i := id % TWO32;
    if IsLive(st, i) && Ord(st, i).id == id then Some(i) else None
  }

  function Reject(c: Command, r: Reason): Event {
    match c
    case New(session, tag, symbol, _, _, _, _, _) => Rejected(session, tag, 0, symbol, r)
    case Cancel(session, tag, id) => Rejected(session, tag, id, 0, r)
    case Replace(session, tag, id, _, _) => Rejected(session, tag, id, 0, r)
  }

  /** The order a New command asks for; its id is set by Alloc. */
  function OrderFor(c: Command): Order
    requires c.New?
  {
    Order(0, c.tag, c.session, c.symbol, c.side, c.otype, c.tif, if c.otype == Limit then c.price else 0, c.qty)
  }

  /** A New command that passes every check. */
  predicate Admitted(st: State, c: Command)
    requires c.New?
  {
    c.qty > 0 && (c.otype == Limit ==> 1 <= c.price <= st.maxPrice) && st.free != []
  }

  function OnNew(st: State, c: Command): (State, seq<Event>)
    requires Inv(st, {}) && c.New? && c.symbol < |st.books|
  {
    if c.qty == 0 then (st, [Reject(c, BadQty)])
    else if c.otype == Limit && !(1 <= c.price <= st.maxPrice) then (st, [Reject(c, BadPrice)])
    else if st.free == [] then (st, [Reject(c, BookFull)])
    else
      AllocInv(st, OrderFor(c));
      var t := st.free[0];
      var a := Alloc(st, OrderFor(c));
      var r := MatchAndRest(a, t);
      (r.0, [Accepted(Ord(a, t))] + r.1)
  }

  function OnCancel(st: State, i: nat): (State, seq<Event>)
    requires Inv(st, {}) && IsLive(st, i)
  {
    ListedInBounds(st, {}, i);
    (Release(Detach(st, i), i), [Cancelled(Ord(st, i))])
  }

  /** The order a Replace command asks for. */
  function Revised(o: Order, c: Command): Order
    requires c.Replace?
  {
    o.(price := c.price, qty := c.qty)
  }

  /** A Replace command with good terms. */
  predicate Replaceable(st: State, c: Command)
    requires c.Replace?
  {
    c.qty > 0 && 1 <= c.price <= st.maxPrice
  }

  /** Same price and no size increase: the order keeps its place in the queue. */
  predicate KeepsPlace(o: Order, c: Command)
    requires c.Replace?
  {
    c.price == o.price && c.qty <= o.qty
  }

  function OnReplace(st: State, c: Command, i: nat): (State, seq<Event>)
    requires Inv(st, {}) && IsLive(st, i) && c.Replace?
  {
    if c.qty == 0 then (st, [Reject(c, BadQty)])
    else if !(1 <= c.price <= st.maxPrice) then (st, [Reject(c, BadPrice)])
    else
      var o := Revised(Ord(st, i), c);
      if KeepsPlace(Ord(st, i), c) then (SetOrd(st, i, o), [Replaced(o)])
      else
        ReplaceInv(st, i, o);
        var r := MatchAndRest(SetOrd(Detach(st, i), i, o), i);
        (r.0, [Replaced(o)] + r.1)
  }

  lemma ReplaceInv(st: State, i: nat, o: Order)
    requires Inv(st, {}) && IsLive(st, i)
    requires o.id == Ord(st, i).id && o.symbol == Ord(st, i).symbol
    ensures InBounds(st.books, KeyOf(Ord(st, i))) && Matching(SetOrd(Detach(st, i), i, o), i)
  {
    DetachInv(st, {}, i);
    assert {} + {i} == {i};
    SetOrdInv(Detach(st, i), {i}, i, o);
  }

  /** A Top event follows exactly when the command moved the top of its book. */
  function WithTop(st: State, y: nat, r: (State, seq<Event>)): (State, seq<Event>)
    requires y < |st.books| && y < |r.0.books|
  {
    (r.0, r.1 + if TopOf(r.0, y) != TopOf(st, y) then [Top(y, TopOf(r.0, y))] else [])
  }

  function Act(st: State, c: Command, i: nat): (State, seq<Event>)
    requires Inv(st, {})
    requires if c.New? then c.symbol < |st.books| else IsLive(st, i)
  {
    match c
    case New(_, _, _, _, _, _, _, _) => OnNew(st, c)
    case Cancel(_, _, _) => OnCancel(st, i)
    case Replace(_, _, _, _, _) => OnReplace(st, c, i)
  }

  lemma ActInv(st: State, c: Command, i: nat)
    requires Inv(st, {})
    requires if c.New? then c.symbol < |st.books| else IsLive(st, i)
    ensures var r := Act(st, c, i).0; Inv(r, {}) && |r.books| == |st.books| && r.maxPrice == st.maxPrice
  {
    match c
    case New(_, _, _, _, _, _, _, _) =>
      if Admitted(st, c) {
        AllocInv(st, OrderFor(c));
        MatchAndRestInv(Alloc(st, OrderFor(c)), st.free[0]);
      }
    case Cancel(_, _, _) =>
      DetachInv(st, {}, i);
      assert {} + {i} == {i} && {i} - {i} == {};
      ReleaseInv(Detach(st, i), {i}, i);
    case Replace(_, _, _, _, _) =>
      if Replaceable(st, c) {
        var o := Revised(Ord(st, i), c);
        if KeepsPlace(Ord(st, i), c) {
          SetOrdInv(st, {}, i, o);
        } else {
          ReplaceInv(st, i, o);
          MatchAndRestInv(SetOrd(Detach(st, i), i, o), i);
        }
      }
  }

  function Step(st: State, c: Command): (State, seq<Event>)
    requires Inv(st, {})
  {
    if c.New? then
      if c.symbol >= |st.books| then (st, [Reject(c, BadSymbol)])
      else
        ActInv(st, c, 0);
        WithTop(st, c.symbol, Act(st, c, 0))
    else
      var f := Find(st, c.id);
      if f.None? then (st, [Reject(c, UnknownOrder)])
      else if Ord(st, f.value).session != c.session then (st, [Reject(c, NotOwner)])
      else
        ActInv(st, c, f.value);
        WithTop(st, Ord(st, f.value).symbol, Act(st, c, f.value))
  }

  /** Every command keeps the whole invariant. */
  lemma StepInv(st: State, c: Command)
    requires Inv(st, {})
    ensures var r := Step(st, c).0; Inv(r, {}) && |r.books| == |st.books| && r.maxPrice == st.maxPrice
  {
    if c.New? {
      if c.symbol < |st.books| { ActInv(st, c, 0); }
    } else {
      var f := Find(st, c.id);
      if f.Some? { ActInv(st, c, f.value); }
    }
  }

  function Init(symbols: nat, maxPrice: nat, capacity: nat): State {
    var side := seq(maxPrice + 1, _ => []);
    State(maxPrice, seq(capacity, _ => Cell(1, None)), seq(symbols, _ => PerSide(side, side)), seq(capacity, i => i))
  }

  lemma {:induction false} TotalEmpty(b: Books)
    requires forall y, p, s | 0 <= y < |b| && 0 <= p < |b[y].Get(s)| :: b[y].Get(s)[p] == []
    ensures Total(b) == 0
  {
    if b != [] {
      var last := b[|b| - 1];
      assert last.Get(Buy) == last.buy && last.Get(Sell) == last.sell;
      CountEmpty(last.buy);
      CountEmpty(last.sell);
      TotalEmpty(b[..|b| - 1]);
    }
  }

  lemma InitInv(symbols: nat, maxPrice: nat, capacity: nat)
    requires symbols <= 0xFFFF && capacity <= NULL
    ensures Inv(Init(symbols, maxPrice, capacity), {})
  {
    var st := Init(symbols, maxPrice, capacity);
    TotalEmpty(st.books);
    forall i: nat ensures i in st.free <==> i < |st.cells| && !IsLive(st, i) {
      if i < capacity { assert st.free[i] == i; }
    }
  }

  /** The state and all the events of a sequence of commands. */
  function Run(st: State, cs: seq<Command>): (State, seq<Event>)
    requires Inv(st, {})
    decreases |cs|
  {
    if cs == [] then (st, [])
    else
      StepInv(st, cs[0]);
      var a := Step(st, cs[0]);
      var r := Run(a.0, cs[1..]);
      (r.0, a.1 + r.1)
  }

  lemma {:induction false} RunConcat(st: State, a: seq<Command>, b: seq<Command>)
    requires Inv(st, {})
    ensures Inv(Run(st, a).0, {})
    ensures var r := Run(Run(st, a).0, b); Run(st, a + b) == (r.0, Run(st, a).1 + r.1)
    decreases |a|
  {
    if a == [] {
      assert a + b == b;
      assert [] + Run(st, b).1 == Run(st, b).1;
    } else {
      StepInv(st, a[0]);
      var s := Step(st, a[0]);
      RunConcat(s.0, a[1..], b);
      TailConcat(a, b);
      Assoc(s.1, Run(s.0, a[1..]).1, Run(Run(s.0, a[1..]).0, b).1);
    }
  }

  lemma RunInv(st: State, cs: seq<Command>)
    requires Inv(st, {})
    ensures Inv(Run(st, cs).0, {})
  {
    RunConcat(st, cs, []);
  }

  lemma RunSnoc(st: State, cs: seq<Command>, c: Command)
    requires Inv(st, {})
    ensures Inv(Run(st, cs).0, {})
    ensures var (m, s) := (Run(st, cs), Step(Run(st, cs).0, c)); Run(st, cs + [c]) == (s.0, m.1 + s.1)
  {
    RunConcat(st, cs, [c]);
    var m := Run(st, cs).0;
    StepInv(m, c);
    assert [c][1..] == [];
    var s := Step(m, c);
    assert Run(m, [c]) == (s.0, s.1) by { assert s.1 + [] == s.1; }
  }
}
