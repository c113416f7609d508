/**
 Books as plain values: for every symbol, side and price, the FIFO of the slots resting there.
 */
module Queues {
  import opened Types

  /** The place of one FIFO. */
  datatype Key = Key(symbol: nat, side: Side, price: int)

  type Levels = seq<seq<nat>>
  type Books = seq<PerSide<Levels>>

  predicate InBounds(b: Books, k: Key) {
    k.symbol < |b| && 0 <= k.price < |b[k.symbol].Get(k.side)|
  }

  /** The FIFO at a key; empty for a key outside the book. */
  function Q(b: Books, k: Key): seq<nat> {
    if InBounds(b, k) then b[k.symbol].Get(k.side)[k.price] else []
  }

  function SetQ(b: Books, k: Key, l: seq<nat>): (r: Books)
    requires InBounds(b, k)
    ensures |r| == |b|
    ensures forall k' :: InBounds(r, k') == InBounds(b, k')
    ensures forall k' :: Q(r, k') == if k' == k then l else Q(b, k')
    ensures forall y, s | 0 <= y < |b| :: |r[y].Get(s)| == |b[y].Get(s)|
  {
    b[k.symbol := b[k.symbol].Put(k.side, b[k.symbol].Get(k.side)[k.price := l])]
  }

  // ---------------------------------------------------------------- best price

  function Lowest<T>(levels: seq<seq<T>>, p: nat): int
    decreases |levels| - p
  {
    if p >= |levels| then NO_PRICE else if levels[p] != [] then p else Lowest(levels, p + 1)
  }

  function Highest<T>(levels: seq<seq<T>>, n: nat): int
    requires n <= |levels|
  {
    if n == 0 then NO_PRICE else if levels[n - 1] != [] then n - 1 else Highest(levels, n - 1)
  }

  /** Best price of one side: the highest bid or the lowest ask, NO_PRICE on an empty side. */
  function Best<T>(levels: seq<seq<T>>, s: Side): int {
    if s == Buy then Highest(levels, |levels|) else Lowest(levels, 0)
  }

  predicate Better(s: Side, p: int, q: int) {
    if s == Buy then p > q else p < q
  }

  /** What "best" means: occupied, with nothing better occupied; NO_PRICE exactly when all is empty. */
  ghost predicate IsBest<T>(levels: seq<seq<T>>, s: Side, p: int) {
    && (p == NO_PRICE || (0 <= p < |levels| && levels[p] != []))
    && (forall q | 0 <= q < |levels| && (p == NO_PRICE || Better(s, q, p)) :: levels[q] == [])
  }

  lemma {:induction false} HighestIs<T>(levels: seq<seq<T>>, n: nat)
    requires n <= |levels|
    ensures var p := Highest(levels, n);
            && (p == NO_PRICE || (0 <= p < n && levels[p] != []))
            && (forall q | 0 <= q < n && q > p :: levels[q] == [])
  {
    if n > 0 && levels[n - 1] == [] { HighestIs(levels, n - 1); }
  }

  lemma {:induction false} LowestIs<T>(levels: seq<seq<T>>, p: nat)
    ensures var r := Lowest(levels, p);
            && (r == NO_PRICE || (p <= r < |levels| && levels[r] != []))
            && (forall q | p <= q < |levels| && (r == NO_PRICE || q < r) :: levels[q] == [])
    decreases |levels| - p
  {
    if p < |levels| && levels[p] == [] { LowestIs(levels, p + 1); }
  }

  lemma BestIsBest<T>(levels: seq<seq<T>>, s: Side)
    ensures IsBest(levels, s, Best(levels, s))
  {
    HighestIs(levels, |levels|);
    LowestIs(levels, 0);
  }

  lemma BestUnique<T>(levels: seq<seq<T>>, s: Side, p: int)
    requires IsBest(levels, s, p)
    ensures p == Best(levels, s)
  {
    BestIsBest(levels, s);
  }

  // ---------------------------------------------------------------- lists of slots

  ghost predicate Distinct(l: seq<nat>) {
    forall i, j | 0 <= i < j < |l| :: l[i] != l[j]
  }

  function Without(l: seq<nat>, i: nat): seq<nat> {
    if l == [] then [] else if l[0] == i then l[1..] else [l[0]] + Without(l[1..], i)
  }

  lemma {:induction false} WithoutAt(l: seq<nat>, k: nat)
    requires Distinct(l) && k < |l|
    ensures Without(l, l[k]) == l[..k] + l[k + 1..]
  {
    if k > 0 {
      WithoutAt(l[1..], k - 1);
      assert l[..k] + l[k + 1..] == [l[0]] + (l[1..][..k - 1] + l[1..][k..]);
    }
  }

  lemma WithoutFacts(l: seq<nat>, i: nat)
    requires Distinct(l) && i in l
    ensures Distinct(Without(l, i)) && |Without(l, i)| == |l| - 1
    ensures forall j :: j in Without(l, i) <==> j in l && j != i
  {
    var k :| 0 <= k < |l| && l[k] == i;
    WithoutAt(l, k);
    assert l == l[..k] + [l[k]] + l[k + 1..];
  }

  // ---------------------------------------------------------------- counting

  function Count(levels: Levels): nat {
    if levels == [] then 0 else Count(levels[..|levels| - 1]) + |levels[|levels| - 1]|
  }

  lemma {:induction false} CountUpdate(levels: Levels, p: nat, l: seq<nat>)
    requires p < |levels|
    ensures Count(levels[p := l]) == Count(levels) - |levels[p]| + |l|
  {
    var n := |levels| - 1;
    if p == n {
      assert levels[p := l][..n] == levels[..n];
    } else {
      CountUpdate(levels[..n], p, l);
      assert levels[p := l][..n] == levels[..n][p := l];
    }
  }

  lemma {:induction false} CountEmpty(levels: Levels)
    requires forall p | 0 <= p < |levels| :: levels[p] == []
    ensures Count(levels) == 0
  {
    if levels != [] { CountEmpty(levels[..|levels| - 1]); }
  }

  function BookCount(b: PerSide<Levels>): nat {
    Count(b.buy) + Count(b.sell)
  }

  /** Number of resting orders over all books. */
  function Total(b: Books): nat {
    if b == [] then 0 else Total(b[..|b| - 1]) + BookCount(b[|b| - 1])
  }

  lemma {:induction false} TotalUpdate(b: Books, y: nat, x: PerSide<Levels>)
    requires y < |b|
    ensures Total(b[y := x]) == Total(b) - BookCount(b[y]) + BookCount(x)
  {
    var n := |b| - 1;
    if y == n {
      assert b[y := x][..n] == b[..n];
    } else {
      TotalUpdate(b[..n], y, x);
      assert b[y := x][..n] == b[..n][y := x];
    }
  }

  lemma TotalSetQ(b: Books, k: Key, l: seq<nat>)
    requires InBounds(b, k)
    ensures Total(SetQ(b, k, l)) == Total(b) - |Q(b, k)| + |l|
  {
    var side := b[k.symbol].Get(k.side);
    CountUpdate(side, k.price, l);
    TotalUpdate(b, k.symbol, b[k.symbol].Put(k.side, side[k.price := l]));
  }
}
