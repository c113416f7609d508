/**
 The Top events of a run are a faithful, change-only feed of each book's top.
 */
module Tops {
  import opened Types
  import opened Queues
  import opened Reference

  // ---------------------------------------------------------------- other symbols

  lemma MatchAndRestElsewhere(st: State, t: nat)
    requires Matching(st, t) && CanMatch(st.maxPrice, Ord(st, t))
    ensures SameElsewhere(st, MatchAndRest(st, t).0, Ord(st, t).symbol)
  {
    MatchInv(st, t);
  }

  /** The symbol a command acts on. */
  function SymbolOf(st: State, c: Command, i: nat): nat
    requires c.New? || IsLive(st, i)
  {
    if c.New? then c.symbol else Ord(st, i).symbol
  }

  lemma NewElsewhere(st: State, c: Command)
    requires Inv(st, {}) && c.New? && c.symbol < |st.books|
    ensures SameElsewhere(st, OnNew(st, c).0, c.symbol)
  {
    if Admitted(st, c) {
      AllocInv(st, OrderFor(c));
      assert st.free[0] in st.free;
      MatchAndRestElsewhere(Alloc(st, OrderFor(c)), st.free[0]);
    }
  }

  lemma ReplaceElsewhere(st: State, c: Command, i: nat)
    requires Inv(st, {}) && c.Replace? && IsLive(st, i)
    ensures SameElsewhere(st, OnReplace(st, c, i).0, Ord(st, i).symbol)
  {
    if Replaceable(st, c) && !KeepsPlace(Ord(st, i), c) {
      var o := Revised(Ord(st, i), c);
      ReplaceInv(st, i, o);
      MatchAndRestElsewhere(SetOrd(Detach(st, i), i, o), i);
    }
  }

  lemma ActElsewhere(st: State, c: Command, i: nat)
    requires Inv(st, {})
    requires if c.New? then c.symbol < |st.books| else IsLive(st, i)
    ensures SameElsewhere(st, Act(st, c, i).0, SymbolOf(st, c, i))
  {
    match c
    case New(_, _, _, _, _, _, _, _) => NewElsewhere(st, c);
    case Cancel(_, _, _) => ListedInBounds(st, {}, i);
    case Replace(_, _, _, _, _) => ReplaceElsewhere(st, c, i);
  }

  lemma TopElsewhere(st: State, r: State, symbol: nat, y: nat)
    requires Inv(st, {}) && SameElsewhere(st, r, symbol) && y < |st.books| && y != symbol
    ensures TopOf(r, y) == TopOf(st, y)
  {
    forall s: Side ensures BestQty(r, y, s) == BestQty(st, y, s) {
      var p := Best(st.books[y].Get(s), s);
      var l := Q(st.books, Key(y, s, p));
      assert Q(r.books, Key(y, s, p)) == l;
      SumFrame(st.cells, r.cells, l);
    }
  }

  // ---------------------------------------------------------------- the feed

  /** The last top reported for `y`, starting from `t`. */
  function Follow(t: TopOfBook, y: nat, ev: seq<Event>): TopOfBook
    decreases |ev|
  {
    if ev == [] then t
    else Follow(if ev[0].Top? && ev[0].symbol == y then ev[0].top else t, y, ev[1..])
  }

  /** Every Top event for `y` differs from the one before it. */
  predicate Moves(t: TopOfBook, y: nat, ev: seq<Event>)
    decreases |ev|
  {
    ev == [] ||
    if ev[0].Top? && ev[0].symbol == y then ev[0].top != t && Moves(ev[0].top, y, ev[1..])
    else Moves(t, y, ev[1..])
  }

  predicate NoTops(ev: seq<Event>) {
    forall e | e in ev :: !e.Top?
  }

  lemma {:induction false} FollowConcat(t: TopOfBook, y: nat, a: seq<Event>, b: seq<Event>)
    ensures Follow(t, y, a + b) == Follow(Follow(t, y, a), y, b)
    ensures Moves(t, y, a + b) == (Moves(t, y, a) && Moves(Follow(t, y, a), y, b))
    decreases |a|
  {
    if a == [] {
      assert a + b == b;
    } else {
      assert (a + b)[1..] == a[1..] + b;
      FollowConcat(if a[0].Top? && a[0].symbol == y then a[0].top else t, y, a[1..], b);
    }
  }

  lemma {:induction false} FollowNone(t: TopOfBook, y: nat, ev: seq<Event>)
    requires NoTops(ev)
    ensures Follow(t, y, ev) == t && Moves(t, y, ev)
  {
    if ev != [] { FollowNone(t, y, ev[1..]); }
  }

  lemma {:induction false} MatchNoTops(st: State, t: nat)
    requires Matching(st, t)
    ensures NoTops(Match(st, t).1)
    decreases Ord(st, t).qty
  {
    if NextPrice(st, t) != NO_PRICE {
      HitInv(st, t);
      MatchNoTops(Hit(st, t), t);
    }
  }

  lemma MatchAndRestNoTops(st: State, t: nat)
    requires Matching(st, t) && CanMatch(st.maxPrice, Ord(st, t))
    ensures NoTops(MatchAndRest(st, t).1)
  {
    MatchNoTops(st, t);
  }

  lemma NewNoTops(st: State, c: Command)
    requires Inv(st, {}) && c.New? && c.symbol < |st.books|
    ensures NoTops(OnNew(st, c).1)
  {
    if Admitted(st, c) {
      AllocInv(st, OrderFor(c));
      MatchAndRestNoTops(Alloc(st, OrderFor(c)), st.free[0]);
    }
  }

  lemma ReplaceNoTops(st: State, c: Command, i: nat)
    requires Inv(st, {}) && c.Replace? && IsLive(st, i)
    ensures NoTops(OnReplace(st, c, i).1)
  {
    if Replaceable(st, c) && !KeepsPlace(Ord(st, i), c) {
      var o := Revised(Ord(st, i), c);
      ReplaceInv(st, i, o);
      MatchAndRestNoTops(SetOrd(Detach(st, i), i, o), i);
    }
  }

  lemma ActNoTops(st: State, c: Command, i: nat)
    requires Inv(st, {})
    requires if c.New? then c.symbol < |st.books| else IsLive(st, i)
    ensures NoTops(Act(st, c, i).1)
  {
    match c
    case New(_, _, _, _, _, _, _, _) => NewNoTops(st, c);
    case Cancel(_, _, _) =>
    case Replace(_, _, _, _, _) => ReplaceNoTops(st, c, i);
  }

  lemma WithTopFollows(st: State, c: Command, i: nat, y: nat)
    requires Inv(st, {}) && y < |st.books|
    requires if c.New? then c.symbol < |st.books| else IsLive(st, i)
    ensures |Act(st, c, i).0.books| == |st.books|
    ensures var r := WithTop(st, SymbolOf(st, c, i), Act(st, c, i));
            Follow(TopOf(st, y), y, r.1) == TopOf(r.0, y) && Moves(TopOf(st, y), y, r.1)
  {
    ActInv(st, c, i);
    var a, z := Act(st, c, i), SymbolOf(st, c, i);
    ActNoTops(st, c, i);
    FollowNone(TopOf(st, y), y, a.1);
    ActElsewhere(st, c, i);
    if y != z { TopElsewhere(st, a.0, z, y); }
    var tail := if TopOf(a.0, z) != TopOf(st, z) then [Top(z, TopOf(a.0, z))] else [];
    FollowConcat(TopOf(st, y), y, a.1, tail);
  }

  lemma StepFollows(st: State, c: Command, y: nat)
    requires Inv(st, {}) && y < |st.books|
    ensures |Step(st, c).0.books| == |st.books|
    ensures Follow(TopOf(st, y), y, Step(st, c).1) == TopOf(Step(st, c).0, y)
    ensures Moves(TopOf(st, y), y, Step(st, c).1)
  {
    StepInv(st, c);
    if c.New? {
      if c.symbol < |st.books| { WithTopFollows(st, c, 0, y); }
    } else {
      var f := Find(st, c.id);
      if f.Some? { WithTopFollows(st, c, f.value, y); }
    }
  }

  /** Over any run, following a book's Top events gives its current top, and each is a change. */
  lemma {:induction false} TopsFollowTheBook(st: State, cs: seq<Command>, y: nat)
    requires Inv(st, {}) && y < |st.books|
    ensures |Run(st, cs).0.books| == |st.books|
    ensures Follow(TopOf(st, y), y, Run(st, cs).1) == TopOf(Run(st, cs).0, y)
    ensures Moves(TopOf(st, y), y, Run(st, cs).1)
    decreases |cs|
  {
    if cs != [] {
      StepInv(st, cs[0]);
      StepFollows(st, cs[0], y);
      var a := Step(st, cs[0]);
      TopsFollowTheBook(a.0, cs[1..], y);
      FollowConcat(TopOf(st, y), y, a.1, Run(a.0, cs[1..]).1);
    }
  }

  /** Nothing rests in a new engine. */
  lemma InitTop(symbols: nat, maxPrice: nat, capacity: nat, y: nat)
    requires y < symbols
    ensures TopOf(Init(symbols, maxPrice, capacity), y) == EMPTY_TOP
  {
    var b := Init(symbols, maxPrice, capacity).books[y];
    BestIsBest(b.buy, Buy);
    BestIsBest(b.sell, Sell);
  }

  /** A follower that starts from the empty top of a new engine always has the current top of the book. */
  lemma TopsFromTheStart(symbols: nat, maxPrice: nat, capacity: nat, cs: seq<Command>, y: nat)
    requires y < symbols <= 0xFFFF && capacity <= NULL
    ensures Inv(Init(symbols, maxPrice, capacity), {})
    ensures var r := Run(Init(symbols, maxPrice, capacity), cs);
            |r.0.books| == symbols && Follow(EMPTY_TOP, y, r.1) == TopOf(r.0, y) && Moves(EMPTY_TOP, y, r.1)
  {
    InitInv(symbols, maxPrice, capacity);
    InitTop(symbols, maxPrice, capacity, y);
    TopsFollowTheBook(Init(symbols, maxPrice, capacity), cs, y);
  }
}
