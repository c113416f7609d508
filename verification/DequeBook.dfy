/**
 The book as the differential test models it: for each price a deque of (id, quantity), with no
 slots, pool or links. Matching takes from the front of the best deque.

 Matching on this book is then shown to walk one flat list, best price first and oldest first
 within a price: price-time priority.
 */
module DequeBook {
  import opened Types
  import opened Queues

  datatype RO = RO(id: nat, qty: nat)
  datatype RefFill = RefFill(id: nat, price: int, qty: nat)

  /** One side: the deque at each price. */
  type Deques = seq<seq<RO>>

  ghost predicate Positive(d: Deques) {
    forall p, k | 0 <= p < |d| && 0 <= k < |d[p]| :: d[p][k].qty > 0
  }

  /** A taker on side `s` with this limit, or none, accepts the price. */
  predicate Accepts(s: Side, limit: Option<int>, price: int) {
    limit.None? || (if s == Buy then limit.value >= price else limit.value <= price)
  }

  /** What taking leaves of a side, of the taker, and the fills on the way. */
  datatype Taken = Taken(side: Deques, left: nat, fills: seq<RefFill>)

  /** The deque after `x` is taken from its front. */
  function Struck(l: seq<RO>, x: nat): seq<RO>
    requires l != [] && x <= l[0].qty
  {
    if x == l[0].qty then l[1..] else [RO(l[0].id, l[0].qty - x)] + l[1..]
  }

  /** A taker on side `s` takes from the deques of the other side. */
  function Take(d: Deques, s: Side, limit: Option<int>, qty: nat): Taken
    requires Positive(d)
    decreases qty
  {
    var p := Best(d, s.Opposite());
    BestIsBest(d, s.Opposite());
    if qty == 0 || p == NO_PRICE || !Accepts(s, limit, p) then Taken(d, qty, [])
    else
      var h := d[p][0];
      var x := Min(qty, h.qty);
      var r := Take(d[p := Struck(d[p], x)], s, limit, qty - x);
      Taken(r.side, r.left, [RefFill(h.id, p, x)] + r.fills)
  }

  // ---------------------------------------------------------------- the flat priority list

  datatype Offer = Offer(price: int, id: nat, qty: nat)

  function OffersAt(l: seq<RO>, p: int): seq<Offer> {
    if l == [] then [] else [Offer(p, l[0].id, l[0].qty)] + OffersAt(l[1..], p)
  }

  /** The prices below `n`, best first for side `s`. */
  function Ranked(n: nat, s: Side): seq<nat> {
    if s == Sell then seq(n, i => i) else seq(n, i requires 0 <= i < n => n - 1 - i)
  }

  lemma RankedIs(n: nat, s: Side)
    ensures |Ranked(n, s)| == n
    ensures forall a, b | 0 <= a < b < n :: Better(s, Ranked(n, s)[a], Ranked(n, s)[b])
    ensures forall p: nat | p < n :: p in Ranked(n, s)
  {
    forall p: nat | p < n ensures p in Ranked(n, s) {
      assert Ranked(n, s)[if s == Sell then p else n - 1 - p] == p;
    }
  }

  predicate InRange(d: Deques, ps: seq<nat>) {
    forall i | 0 <= i < |ps| :: ps[i] < |d|
  }

  /** The offers at the given prices, in that order. */
  function Flat(d: Deques, ps: seq<nat>): seq<Offer>
    requires InRange(d, ps)
  {
    if ps == [] then [] else OffersAt(d[ps[0]], ps[0]) + Flat(d, ps[1..])
  }

  /** Every offer of side `s`: best price first, oldest first within a price. */
  function Priority(d: Deques, s: Side): seq<Offer> {
    Flat(d, Ranked(|d|, s))
  }

  /** One pass down a list of offers. */
  function Walk(f: seq<Offer>, s: Side, limit: Option<int>, qty: nat): seq<RefFill> {
    if f == [] || qty == 0 || !Accepts(s, limit, f[0].price) then []
    else
      var x := Min(qty, f[0].qty);
      [RefFill(f[0].id, f[0].price, x)] + if x == f[0].qty then Walk(f[1..], s, limit, qty - x) else []
  }

  // ---------------------------------------------------------------- taking is walking

  lemma {:induction false} FlatElsewhere(d: Deques, ps: seq<nat>, b: nat, l: seq<RO>)
    requires InRange(d, ps) && b < |d| && b !in ps
    ensures Flat(d[b := l], ps) == Flat(d, ps)
  {
    if ps != [] { FlatElsewhere(d, ps[1..], b, l); }
  }

  /** With nothing at the prices before `ps[j]`, the list starts with the deque there, whatever it is. */
  lemma {:induction false} FlatFront(d: Deques, ps: seq<nat>, j: nat, l: seq<RO>)
    requires InRange(d, ps) && j < |ps| && (forall i | 0 <= i < j :: d[ps[i]] == [])
    requires forall i | 0 <= i < |ps| && i != j :: ps[i] != ps[j]
    ensures Flat(d[ps[j] := l], ps) == OffersAt(l, ps[j]) + Flat(d, ps[j + 1..])
  {
    if j == 0 {
      FlatElsewhere(d, ps[1..], ps[0], l);
    } else {
      FlatFront(d, ps[1..], j - 1, l);
      assert ps[1..][j..] == ps[j + 1..];
    }
  }

  lemma PriorityFront(d: Deques, s: Side, b: nat, l: seq<RO>) returns (rest: seq<Offer>)
    requires b < |d| && IsBest(d, s, b)
    ensures Priority(d, s) == OffersAt(d[b], b) + rest
    ensures Priority(d[b := l], s) == OffersAt(l, b) + rest
  {
    var ps, j := Ranked(|d|, s), if s == Sell then b else |d| - 1 - b;
    rest := Flat(d, ps[j + 1..]);
    FlatFront(d, ps, j, l);
    FlatFront(d, ps, j, d[b]);
    assert d[b := d[b]] == d;
  }

  lemma {:induction false} FlatEmpty(d: Deques, ps: seq<nat>)
    requires InRange(d, ps) && forall q | 0 <= q < |d| :: d[q] == []
    ensures Flat(d, ps) == []
  {
    if ps != [] { FlatEmpty(d, ps[1..]); }
  }

  lemma OffersStruck(l: seq<RO>, p: int, x: nat, rest: seq<Offer>)
    requires l != [] && x <= l[0].qty
    ensures var f := OffersAt(l, p) + rest;
            && f != [] && f[0] == Offer(p, l[0].id, l[0].qty)
            && (x == l[0].qty ==> f[1..] == OffersAt(Struck(l, x), p) + rest)
  {
  }

  lemma TakeNothing(d: Deques, s: Side)
    requires Best(d, s) == NO_PRICE
    ensures Priority(d, s) == []
  {
    BestIsBest(d, s);
    FlatEmpty(d, Ranked(|d|, s));
  }

  /** The first of the list, and the list without it or with some of it taken. */
  lemma PriorityStruck(d: Deques, s: Side, p: nat, x: nat)
    requires p < |d| && IsBest(d, s, p) && d[p] != [] && x <= d[p][0].qty
    ensures Priority(d, s) != [] && Priority(d, s)[0] == Offer(p, d[p][0].id, d[p][0].qty)
    ensures x == d[p][0].qty ==> Priority(d[p := Struck(d[p], x)], s) == Priority(d, s)[1..]
  {
    var rest := PriorityFront(d, s, p, Struck(d[p], x));
    OffersStruck(d[p], p, x, rest);
  }

  lemma WalkFirst(f: seq<Offer>, left: seq<Offer>, s: Side, limit: Option<int>, qty: nat, x: nat)
    requires f != [] && qty > 0 && Accepts(s, limit, f[0].price) && x == Min(qty, f[0].qty)
    requires x == f[0].qty ==> left == f[1..]
    ensures Walk(f, s, limit, qty) == [RefFill(f[0].id, f[0].price, x)] + Walk(left, s, limit, qty - x)
  {
  }

  /** Taking from the deques fills exactly what one pass down the priority list fills. */
  lemma {:induction false} TakeWalks(d: Deques, s: Side, limit: Option<int>, qty: nat)
    requires Positive(d)
    ensures Take(d, s, limit, qty).fills == Walk(Priority(d, s.Opposite()), s, limit, qty)
    decreases qty
  {
    var p := Best(d, s.Opposite());
    if p == NO_PRICE {
      TakeNothing(d, s.Opposite());
    } else {
      BestIsBest(d, s.Opposite());
      var x := Min(qty, d[p][0].qty);
      PriorityStruck(d, s.Opposite(), p, x);
      if qty > 0 && Accepts(s, limit, p) {
        var d' := d[p := Struck(d[p], x)];
        TakeWalks(d', s, limit, qty - x);
        WalkFirst(Priority(d, s.Opposite()), Priority(d', s.Opposite()), s, limit, qty, x);
      }
    }
  }

  // ---------------------------------------------------------------- what the list is

  lemma {:induction false} OffersAtIs(l: seq<RO>, p: int)
    ensures |OffersAt(l, p)| == |l|
    ensures forall k | 0 <= k < |l| :: OffersAt(l, p)[k] == Offer(p, l[k].id, l[k].qty)
  {
    if l != [] { OffersAtIs(l[1..], p); }
  }

  /** Where the i-th offer of the list sits: its price and its position in that deque. */
  function Where(d: Deques, ps: seq<nat>, i: nat): (nat, nat)
    requires InRange(d, ps) && i < |Flat(d, ps)|
  {
    OffersAtIs(d[ps[0]], ps[0]);
    if i < |d[ps[0]]| then (ps[0], i) else Where(d, ps[1..], i - |d[ps[0]]|)
  }

  lemma {:induction false} WhereIs(d: Deques, ps: seq<nat>, i: nat)
    requires InRange(d, ps) && i < |Flat(d, ps)|
    ensures var (p, k) := Where(d, ps, i);
            p in ps && p < |d| && k < |d[p]| && Flat(d, ps)[i] == Offer(p, d[p][k].id, d[p][k].qty)
  {
    OffersAtIs(d[ps[0]], ps[0]);
    if i >= |d[ps[0]]| { WhereIs(d, ps[1..], i - |d[ps[0]]|); }
  }

  /** Earlier in the list: a better price, or the same price and an earlier arrival. */
  predicate Before(s: Side, a: (nat, nat), b: (nat, nat)) {
    Better(s, a.0, b.0) || (a.0 == b.0 && a.1 < b.1)
  }

  lemma {:induction false} WhereOrder(d: Deques, ps: seq<nat>, s: Side, i: nat, j: nat)
    requires InRange(d, ps) && (forall a, b | 0 <= a < b < |ps| :: Better(s, ps[a], ps[b]))
    requires i < j < |Flat(d, ps)|
    ensures Before(s, Where(d, ps, i), Where(d, ps, j))
  {
    OffersAtIs(d[ps[0]], ps[0]);
    var n := |d[ps[0]]|;
    if i >= n {
      WhereOrder(d, ps[1..], s, i - n, j - n);
    } else if j >= n {
      WhereIs(d, ps[1..], j - n);
    }
  }

  /** Every resting order is in the list. */
  lemma {:induction false} Reached(d: Deques, ps: seq<nat>, p: nat, k: nat) returns (i: nat)
    requires InRange(d, ps) && p in ps && p < |d| && k < |d[p]| && (forall a, b | 0 <= a < b < |ps| :: ps[a] != ps[b])
    ensures i < |Flat(d, ps)| && Where(d, ps, i) == (p, k)
  {
    OffersAtIs(d[ps[0]], ps[0]);
    if ps[0] == p {
      i := k;
    } else {
      i := Reached(d, ps[1..], p, k);
      i := i + |d[ps[0]]|;
    }
  }

  /** The k-th order at price `p` has a place in the priority list. */
  ghost predicate Ranks(d: Deques, s: Side, p: nat, k: nat) {
    exists i: nat | i < |Priority(d, s)| :: Where(d, Ranked(|d|, s), i) == (p, k)
  }

  /**
   The priority list is what its name says: its entries are exactly the resting orders, each where
   `Where` says, in strictly increasing priority.
   */
  lemma PriorityIsPriceTime(d: Deques, s: Side)
    ensures forall i: nat | i < |Priority(d, s)| ::
              var (p, k) := Where(d, Ranked(|d|, s), i);
              p < |d| && k < |d[p]| && Priority(d, s)[i] == Offer(p, d[p][k].id, d[p][k].qty)
    ensures forall i: nat, j: nat | i < j < |Priority(d, s)| ::
              Before(s, Where(d, Ranked(|d|, s), i), Where(d, Ranked(|d|, s), j))
    ensures forall p: nat, k: nat | p < |d| && k < |d[p]| :: Ranks(d, s, p, k)
  {
    var ps := Ranked(|d|, s);
    RankedIs(|d|, s);
    forall i: nat | i < |Priority(d, s)|
      ensures var (p, k) := Where(d, ps, i);
              p < |d| && k < |d[p]| && Priority(d, s)[i] == Offer(p, d[p][k].id, d[p][k].qty)
    {
      WhereIs(d, ps, i);
    }
    forall i: nat, j: nat | i < j < |Priority(d, s)| ensures Before(s, Where(d, ps, i), Where(d, ps, j)) {
      WhereOrder(d, ps, s, i, j);
    }
    forall p: nat, k: nat | p < |d| && k < |d[p]| ensures Ranks(d, s, p, k) {
      var i := Reached(d, ps, p, k);
    }
  }

  // ---------------------------------------------------------------- what the walk fills

  function Crossing(f: seq<Offer>, s: Side, limit: Option<int>): nat {
    if f == [] then 0
    else (if Accepts(s, limit, f[0].price) then f[0].qty else 0) + Crossing(f[1..], s, limit)
  }

  function Filled(w: seq<RefFill>): nat {
    if w == [] then 0 else w[0].qty + Filled(w[1..])
  }

  ghost predicate BestFirst(f: seq<Offer>, s: Side) {
    forall i, j | 0 <= i < j < |f| :: !Better(s, f[j].price, f[i].price)
  }

  ghost predicate Sized(f: seq<Offer>) {
    forall i | 0 <= i < |f| :: f[i].qty > 0
  }

  lemma BestFirstTail(f: seq<Offer>, s: Side)
    requires f != [] && BestFirst(f, s) && Sized(f)
    ensures BestFirst(f[1..], s) && Sized(f[1..])
  {
  }

  lemma {:induction false} NoneCrossing(f: seq<Offer>, s: Side, limit: Option<int>)
    requires f != [] && BestFirst(f, s.Opposite()) && !Accepts(s, limit, f[0].price)
    ensures Crossing(f, s, limit) == 0
  {
    if |f| > 1 {
      assert !Better(s.Opposite(), f[1].price, f[0].price);
      NoneCrossing(f[1..], s, limit);
    }
  }

  /**
   The makers hit are a prefix of the list; all but the last are fully consumed; every fill is at
   the maker's price and within the limit; and the total is the smaller of what the taker wants
   and what crosses.
   */
  ghost predicate FillsInOrder(w: seq<RefFill>, f: seq<Offer>, s: Side, limit: Option<int>, qty: nat) {
    && |w| <= |f|
    && (forall i: nat | i < |w| :: FillAt(w, f, s, limit, i))
    && Filled(w) == Min(qty, Crossing(f, s, limit))
  }

  predicate FillAt(w: seq<RefFill>, f: seq<Offer>, s: Side, limit: Option<int>, i: nat)
    requires i < |w| <= |f|
  {
    && w[i].id == f[i].id && w[i].price == f[i].price
    && (limit.Some? ==> if s == Buy then w[i].price <= limit.value else w[i].price >= limit.value)
    && 0 < w[i].qty <= f[i].qty && (i < |w| - 1 ==> w[i].qty == f[i].qty)
  }

  /** A first fill in front of fills in order; unless it used the maker up, it is the only one. */
  lemma FillsFirst(w: seq<RefFill>, f: seq<Offer>, s: Side, limit: Option<int>, qty: nat)
    requires f != [] && f[0].qty > 0 && qty > 0 && Accepts(s, limit, f[0].price)
    requires if qty >= f[0].qty then FillsInOrder(w, f[1..], s, limit, qty - f[0].qty) else w == []
    ensures FillsInOrder([RefFill(f[0].id, f[0].price, Min(qty, f[0].qty))] + w, f, s, limit, qty)
  {
    var all := [RefFill(f[0].id, f[0].price, Min(qty, f[0].qty))] + w;
    assert all[1..] == w;
    forall i: nat | i < |all| ensures FillAt(all, f, s, limit, i) {
      if i > 0 { assert FillAt(w, f[1..], s, limit, i - 1); }
    }
  }

  lemma {:induction false} WalkFills(f: seq<Offer>, s: Side, limit: Option<int>, qty: nat)
    requires BestFirst(f, s.Opposite()) && Sized(f)
    ensures FillsInOrder(Walk(f, s, limit, qty), f, s, limit, qty)
  {
    if f != [] {
      if !Accepts(s, limit, f[0].price) {
        NoneCrossing(f, s, limit);
      } else if qty >= f[0].qty {
        BestFirstTail(f, s.Opposite());
        WalkFills(f[1..], s, limit, qty - f[0].qty);
        FillsFirst(Walk(f[1..], s, limit, qty - f[0].qty), f, s, limit, qty);
      } else if qty > 0 {
        FillsFirst([], f, s, limit, qty);
      }
    }
  }

  lemma PriorityIsBestFirst(d: Deques, s: Side)
    requires Positive(d)
    ensures BestFirst(Priority(d, s), s) && Sized(Priority(d, s))
  {
    var (f, ps) := (Priority(d, s), Ranked(|d|, s));
    PriorityIsPriceTime(d, s);
    forall i | 0 <= i < |f| ensures f[i].qty > 0 {
      var (p, k) := Where(d, ps, i);
      assert f[i] == Offer(p, d[p][k].id, d[p][k].qty);
    }
    forall i, j | 0 <= i < j < |f| ensures !Better(s, f[j].price, f[i].price) {
      assert Before(s, Where(d, ps, i), Where(d, ps, j));
    }
  }
}
