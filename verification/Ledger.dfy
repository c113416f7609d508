/**
 Conservation: replaying the events of a run, order id by order id, reproduces every reported remainder and ends
 with exactly the live orders. Every event of an order is told as its own: under the session, tag, symbol and side
 it was opened with.
 */
module Ledger {
  import opened Types
  import opened Queues
  import opened Reference

  /** The open orders by id, as last told; closed orders are absent. */
  type Ledger = map<nat, Order>

  /** An order entered as it stands; with nothing left it is closed. */
  function Book(l: Ledger, o: Order): Ledger {
    if o.qty == 0 then l - {o.id} else l[o.id := o]
  }

  /** What is left of the order kept under `id` after a fill of `x`. */
  function Kept(l: Ledger, id: nat, x: nat): Order
    requires id in l && x <= l[id].qty
  {
    l[id].(id := id, qty := l[id].qty - x)
  }

  /** What an event does to the ledger; a fill subtracts, it does not read the reported remainder. */
  function Post(l: Ledger, e: Event): Ledger {
    match e
    case Accepted(o) => Book(l, o)
    case Fill(o, _, _, x) => if o.id in l && x <= l[o.id].qty then Book(l, Kept(l, o.id, x)) else l
    case Cancelled(o) => l - {o.id}
    case Replaced(o) => if o.id in l then Book(l, l[o.id].(id := o.id, price := o.price, qty := o.qty)) else l
    case _ => l
  }

  /**
   The event is possible, and tells of the order what the ledger says: whose it is and all its terms. A fill takes
   from its quantity, and a replacement gives it a new price and quantity; nothing else ever changes.
   */
  predicate Audit(l: Ledger, e: Event) {
    match e
    case Accepted(o) => o.id !in l && o.qty > 0
    case Fill(o, _, _, x) => o.id in l && 0 < x <= l[o.id].qty && o == l[o.id].(qty := l[o.id].qty - x)
    case Cancelled(o) => o.id in l && o == l[o.id]
    case Replaced(o) => o.id in l && o.qty > 0 && o == l[o.id].(price := o.price, qty := o.qty)
    case _ => true
  }

  function Replay(l: Ledger, ev: seq<Event>): Ledger
    decreases |ev|
  {
    if ev == [] then l else Replay(Post(l, ev[0]), ev[1..])
  }

  predicate Audits(l: Ledger, ev: seq<Event>)
    decreases |ev|
  {
    ev == [] || (Audit(l, ev[0]) && Audits(Post(l, ev[0]), ev[1..]))
  }

  lemma {:induction false} ReplayConcat(l: Ledger, a: seq<Event>, b: seq<Event>)
    ensures Replay(l, a + b) == Replay(Replay(l, a), b)
    ensures Audits(l, a + b) == (Audits(l, a) && Audits(Replay(l, a), b))
    decreases |a|
  {
    if a == [] {
      assert a + b == b;
    } else {
      assert (a + b)[1..] == a[1..] + b;
      ReplayConcat(Post(l, a[0]), a[1..], b);
    }
  }

  // ---------------------------------------------------------------- ledger and state

  /** Open quantity of an id in the engine; 0 if no live order has it. */
  function OpenQty(st: State, id: nat): nat {
    var f := Find(st, id);
    if f.None? then 0 else Ord(st, f.value).qty
  }

  predicate TracksAt(l: Ledger, st: State, id: nat) {
    if OpenQty(st, id) > 0 then id in l && l[id] == Ord(st, Find(st, id).value) else id !in l
  }

  /** The ledger is exactly the open orders of the state. */
  ghost predicate Tracks(l: Ledger, st: State) {
    forall id: nat :: TracksAt(l, st, id)
  }

  /** One cell changed, and with it the order of one id. */
  lemma TracksBook(l: Ledger, st: State, r: State, i: nat, o: Order)
    requires Tracks(l, st) && |r.cells| == |st.cells| && i < |st.cells| && o.id % TWO32 == i
    requires forall j | 0 <= j < |st.cells| && j != i :: r.cells[j] == st.cells[j]
    requires IsLive(st, i) ==> Ord(st, i).id == o.id
    requires if o.qty == 0 then IsLive(r, i) ==> Ord(r, i).id == o.id && Ord(r, i).qty == 0
             else IsLive(r, i) && Ord(r, i) == o
    ensures Tracks(Book(l, o), r)
  {
    var l' := Book(l, o);
    forall id: nat ensures TracksAt(l', r, id) {
      assert TracksAt(l, st, id);
    }
  }

  lemma TracksCells(l: Ledger, st: State, r: State)
    requires Tracks(l, st) && r.cells == st.cells
    ensures Tracks(l, r)
  {
    forall id: nat ensures TracksAt(l, r, id) {
      assert TracksAt(l, st, id);
    }
  }

  lemma IdSlot(st: State, T: set<nat>, i: nat)
    requires Inv(st, T) && IsLive(st, i)
    ensures Ord(st, i).id % TWO32 == i && Find(st, Ord(st, i).id) == Some(i) && OpenQty(st, Ord(st, i).id) == Ord(st, i).qty
  {
    var g := st.cells[i].gen;
    assert (g * TWO32 + i) % TWO32 == i;
  }

  /** From a tracked state, the events audit and lead to a ledger tracking the next state. */
  ghost predicate Accounts(l: Ledger, r: (State, seq<Event>)) {
    Audits(l, r.1) && Tracks(Replay(l, r.1), r.0)
  }

  lemma AccountsThen(l: Ledger, a: (State, seq<Event>), b: (State, seq<Event>))
    requires Audits(l, a.1) && Accounts(Replay(l, a.1), b)
    ensures Accounts(l, (b.0, a.1 + b.1))
  {
    ReplayConcat(l, a.1, b.1);
  }

  lemma ReplayThree(l: Ledger, a: Event, b: Event, c: Event)
    ensures Replay(l, [a, b, c]) == Post(Post(Post(l, a), b), c)
    ensures Audits(l, [a, b, c]) == (Audit(l, a) && Audit(Post(l, a), b) && Audit(Post(Post(l, a), b), c))
  {
    ReplayConcat(l, [a], [b, c]);
    ReplayConcat(Post(l, a), [b], [c]);
    assert [a] + [b, c] == [a, b, c] && [b] + [c] == [b, c];
  }

  lemma PostFill(l: Ledger, o: Order, maker: bool, px: int, x: nat)
    requires 0 < x <= o.qty && o.id in l && l[o.id] == o
    ensures var e := Fill(Less(o, x), maker, px, x); Audit(l, e) && Post(l, e) == Book(l, Less(o, x))
  {
  }

  /** Two distinct live orders each give up `x`; the ledger follows. */
  lemma ExchangeTracks(l: Ledger, st: State, t: nat, m: nat, x: nat)
    requires Tracks(l, st) && IsLive(st, t) && IsLive(st, m) && t != m && |st.cells| <= TWO32
    requires Ord(st, t).id % TWO32 == t && Ord(st, m).id % TWO32 == m
    requires 0 < x <= Ord(st, t).qty && x <= Ord(st, m).qty
    ensures var o, mo := Ord(st, t), Ord(st, m);
            var l1 := Book(l, Less(mo, x));
            && mo.id in l && l[mo.id] == mo && o.id in l1 && l1[o.id] == o
            && Tracks(Book(l1, Less(o, x)), SetOrd(SetOrd(st, t, Less(o, x)), m, Less(mo, x)))
  {
    var o, mo := Ord(st, t), Ord(st, m);
    var a, l1 := SetOrd(st, m, Less(mo, x)), Book(l, Less(mo, x));
    assert mo.id in l && l[mo.id] == mo by { assert TracksAt(l, st, mo.id); }
    assert Tracks(l1, a) by { TracksBook(l, st, a, m, Less(mo, x)); }
    assert o.id in l1 && l1[o.id] == o by { assert TracksAt(l1, a, o.id); }
    var r := SetOrd(a, t, Less(o, x));
    assert r == SetOrd(SetOrd(st, t, Less(o, x)), m, Less(mo, x));
    assert Tracks(Book(l1, Less(o, x)), r) by { TracksBook(l1, a, r, t, Less(o, x)); }
  }

  /** Freeing an order with nothing left, or taking one off the books, closes its id. */
  lemma ReleaseTracks(l: Ledger, st: State, r: State, i: nat)
    requires Tracks(l, st) && IsLive(st, i) && Ord(st, i).id % TWO32 == i && r.cells == Release(st, i).cells
    ensures Tracks(l - {Ord(st, i).id}, r)
    ensures Ord(st, i).qty == 0 ==> Tracks(l, r)
  {
    TracksBook(l, st, r, i, Ord(st, i).(qty := 0));
    assert TracksAt(l, st, Ord(st, i).id);
    if Ord(st, i).qty == 0 { assert l - {Ord(st, i).id} == l; }
  }

  lemma HitAccounts(l: Ledger, st: State, t: nat)
    requires Tracks(l, st) && CanHit(st, t)
    ensures Accounts(l, (Hit(st, t), HitEvents(st, t)))
  {
    var m, x, px := Maker(st, t), HitQty(st, t), NextPrice(st, t);
    var o, mo := Ord(st, t), Ord(st, m);
    IdSlot(st, {t}, t);
    IdSlot(st, {t}, m);
    ExchangeTracks(l, st, t, m, x);
    var l1 := Book(l, Less(mo, x));
    var l2 := Book(l1, Less(o, x));
    PostFill(l, mo, true, px, x);
    PostFill(l1, o, false, px, x);
    ReplayThree(l, Fill(Less(mo, x), true, px, x), Fill(Less(o, x), false, px, x), Trade(o.symbol, o.side, px, x));
    assert Audits(l, HitEvents(st, t)) && Replay(l, HitEvents(st, t)) == l2;
    var r := SetOrd(SetOrd(st, t, Less(o, x)), m, Less(mo, x));
    if mo.qty == x {
      ReleaseTracks(l2, r, Hit(st, t), m);
    }
  }

  lemma {:induction false} MatchAccounts(l: Ledger, st: State, t: nat)
    requires Tracks(l, st) && Matching(st, t)
    ensures Accounts(l, Match(st, t))
    decreases Ord(st, t).qty
  {
    if NextPrice(st, t) != NO_PRICE {
      HitInv(st, t);
      HitAccounts(l, st, t);
      MatchAccounts(Replay(l, HitEvents(st, t)), Hit(st, t), t);
      AccountsThen(l, (Hit(st, t), HitEvents(st, t)), Match(Hit(st, t), t));
    }
  }

  lemma SettleAccounts(l: Ledger, st: State, t: nat)
    requires Tracks(l, st) && Matching(st, t)
    requires Ord(st, t).otype == Limit ==> InBounds(st.books, KeyOf(Ord(st, t)))
    ensures Accounts(l, Settle(st, t))
  {
    var o := Ord(st, t);
    IdSlot(st, {t}, t);
    assert TracksAt(l, st, o.id);
    if o.qty == 0 || o.otype == Market || o.tif == IOC {
      ReleaseTracks(l, st, Release(st, t), t);
      ReplayOne(l, Cancelled(o));
    } else {
      TracksCells(l, st, Rest(st, t));
    }
  }

  lemma ReplayOne(l: Ledger, e: Event)
    ensures Replay(l, [e]) == Post(l, e) && Audits(l, [e]) == Audit(l, e)
  {
    assert [e][1..] == [];
  }

  lemma MatchAndRestAccounts(l: Ledger, st: State, t: nat)
    requires Tracks(l, st) && Matching(st, t) && CanMatch(st.maxPrice, Ord(st, t))
    ensures Accounts(l, MatchAndRest(st, t))
  {
    MatchInv(st, t);
    MatchAccounts(l, st, t);
    SettleAccounts(Replay(l, Match(st, t).1), Match(st, t).0, t);
    AccountsThen(l, Match(st, t), Settle(Match(st, t).0, t));
  }

  lemma NewAccounts(l: Ledger, st: State, c: Command)
    requires Tracks(l, st) && Inv(st, {}) && c.New? && c.symbol < |st.books|
    ensures Accounts(l, OnNew(st, c))
  {
    if Admitted(st, c) {
      AllocInv(st, OrderFor(c));
      var t, a := st.free[0], Alloc(st, OrderFor(c));
      assert t in st.free;
      IdSlot(a, {t}, t);
      var o := Ord(a, t);
      assert TracksAt(l, st, o.id);
      TracksBook(l, st, a, t, o);
      ReplayOne(l, Accepted(o));
      MatchAndRestAccounts(Book(l, o), a, t);
      AccountsThen(l, (a, [Accepted(o)]), MatchAndRest(a, t));
    } else {
      ReplayOne(l, OnNew(st, c).1[0]);
    }
  }

  lemma CancelAccounts(l: Ledger, st: State, i: nat)
    requires Tracks(l, st) && Inv(st, {}) && IsLive(st, i)
    ensures Accounts(l, OnCancel(st, i))
  {
    IdSlot(st, {}, i);
    assert TracksAt(l, st, Ord(st, i).id);
    ListedInBounds(st, {}, i);
    ReleaseTracks(l, st, OnCancel(st, i).0, i);
    ReplayOne(l, Cancelled(Ord(st, i)));
  }

  lemma ReplaceAccounts(l: Ledger, st: State, c: Command, i: nat)
    requires Tracks(l, st) && Inv(st, {}) && IsLive(st, i) && c.Replace?
    ensures Accounts(l, OnReplace(st, c, i))
  {
    if Replaceable(st, c) {
      var o := Revised(Ord(st, i), c);
      IdSlot(st, {}, i);
      assert TracksAt(l, st, o.id);
      ReplayOne(l, Replaced(o));
      TracksBook(l, st, SetOrd(st, i, o), i, o);
      if !KeepsPlace(Ord(st, i), c) {
        ReplaceInv(st, i, o);
        var a := SetOrd(Detach(st, i), i, o);
        TracksBook(l, st, a, i, o);
        MatchAndRestAccounts(Book(l, o), a, i);
        AccountsThen(l, (a, [Replaced(o)]), MatchAndRest(a, i));
      }
    } else {
      ReplayOne(l, OnReplace(st, c, i).1[0]);
    }
  }

  lemma ActAccounts(l: Ledger, st: State, c: Command, i: nat)
    requires Tracks(l, st) && Inv(st, {})
    requires if c.New? then c.symbol < |st.books| else IsLive(st, i)
    ensures Accounts(l, Act(st, c, i))
  {
    match c
    case New(_, _, _, _, _, _, _, _) => NewAccounts(l, st, c);
    case Cancel(_, _, _) => CancelAccounts(l, st, i);
    case Replace(_, _, _, _, _) => ReplaceAccounts(l, st, c, i);
  }

  lemma WithTopAccounts(l: Ledger, st: State, y: nat, a: (State, seq<Event>))
    requires Accounts(l, a) && y < |st.books| && y < |a.0.books|
    ensures Accounts(l, WithTop(st, y, a))
  {
    var top := if TopOf(a.0, y) != TopOf(st, y) then [Top(y, TopOf(a.0, y))] else [];
    if top != [] { ReplayOne(Replay(l, a.1), top[0]); }
    AccountsThen(l, a, (a.0, top));
  }

  lemma StepAccounts(l: Ledger, st: State, c: Command)
    requires Tracks(l, st) && Inv(st, {})
    ensures Accounts(l, Step(st, c))
  {
    if c.New? {
      ReplayOne(l, Reject(c, BadSymbol));
      if c.symbol < |st.books| {
        ActInv(st, c, 0);
        ActAccounts(l, st, c, 0);
        WithTopAccounts(l, st, c.symbol, Act(st, c, 0));
      }
    } else {
      ReplayOne(l, Reject(c, UnknownOrder));
      ReplayOne(l, Reject(c, NotOwner));
      var f := Find(st, c.id);
      if f.Some? {
        ActInv(st, c, f.value);
        ActAccounts(l, st, c, f.value);
        WithTopAccounts(l, st, Ord(st, f.value).symbol, Act(st, c, f.value));
      }
    }
  }

  /** Every run conserves quantity: all its events audit, and the ledger ends as the live orders. */
  lemma {:induction false} RunConserves(l: Ledger, st: State, cs: seq<Command>)
    requires Tracks(l, st) && Inv(st, {})
    ensures Accounts(l, Run(st, cs))
    decreases |cs|
  {
    if cs != [] {
      StepInv(st, cs[0]);
      StepAccounts(l, st, cs[0]);
      var a := Step(st, cs[0]);
      RunConserves(Replay(l, a.1), a.0, cs[1..]);
      AccountsThen(l, a, Run(a.0, cs[1..]));
    }
  }

  lemma InitTracked(symbols: nat, maxPrice: nat, capacity: nat)
    ensures Tracks(map[], Init(symbols, maxPrice, capacity))
  {
    forall id: nat ensures TracksAt(map[], Init(symbols, maxPrice, capacity), id) {
    }
  }

  /** From a new engine: the events of any run audit from nothing, and leave open exactly the live orders. */
  lemma ConservedFromTheStart(symbols: nat, maxPrice: nat, capacity: nat, cs: seq<Command>)
    requires symbols <= 0xFFFF && capacity <= NULL
    ensures Inv(Init(symbols, maxPrice, capacity), {})
    ensures var r := Run(Init(symbols, maxPrice, capacity), cs); Audits(map[], r.1) && Tracks(Replay(map[], r.1), r.0)
  {
    InitInv(symbols, maxPrice, capacity);
    InitTracked(symbols, maxPrice, capacity);
    RunConserves(map[], Init(symbols, maxPrice, capacity), cs);
  }

  // ---------------------------------------------------------------- trades

  /** A trade is reported with its two sides: the maker's fill, then the taker's, at one price and size. */
  predicate IsTrade(m: Event, t: Event, e: Event) {
    && m.Fill? && m.maker && t.Fill? && !t.maker && e.Trade?
    && m.price == t.price == e.price && m.qty == t.qty == e.qty && e.qty > 0
    && m.order.symbol == t.order.symbol == e.symbol
    && t.order.side == e.side && m.order.side == e.side.Opposite() && m.order.id != t.order.id
  }

  /** Fills and trades occur only as whole trades. */
  predicate Paired(ev: seq<Event>) {
    if ev == [] then true
    else if ev[0].Fill? || ev[0].Trade? then |ev| >= 3 && IsTrade(ev[0], ev[1], ev[2]) && Paired(ev[3..])
    else Paired(ev[1..])
  }

  lemma {:induction false} PairedConcat(a: seq<Event>, b: seq<Event>)
    requires Paired(a) && Paired(b)
    ensures Paired(a + b)
  {
    if a == [] {
      assert a + b == b;
    } else {
      var n := if StartsTrade(a) then 3 else 1;
      assert (a + b)[n..] == a[n..] + b;
      PairedConcat(a[n..], b);
    }
  }

  predicate StartsTrade(a: seq<Event>)
    requires a != []
  {
    a[0].Fill? || a[0].Trade?
  }

  lemma HitPaired(st: State, t: nat)
    requires CanHit(st, t)
    ensures Paired(HitEvents(st, t))
  {
    IdSlot(st, {t}, t);
    IdSlot(st, {t}, Maker(st, t));
    assert HitEvents(st, t)[3..] == [];
  }

  lemma {:induction false} MatchPaired(st: State, t: nat)
    requires Matching(st, t)
    ensures Paired(Match(st, t).1)
    decreases Ord(st, t).qty
  {
    if NextPrice(st, t) != NO_PRICE {
      HitInv(st, t);
      HitPaired(st, t);
      MatchPaired(Hit(st, t), t);
      PairedConcat(HitEvents(st, t), Match(Hit(st, t), t).1);
    }
  }

  lemma PairedOne(e: Event)
    requires !e.Fill? && !e.Trade?
    ensures Paired([e])
  {
    assert [e][1..] == [];
  }

  lemma MatchAndRestPaired(st: State, t: nat, e: Event)
    requires Matching(st, t) && CanMatch(st.maxPrice, Ord(st, t)) && !e.Fill? && !e.Trade?
    ensures Paired([e] + MatchAndRest(st, t).1)
  {
    MatchInv(st, t);
    MatchPaired(st, t);
    var f := Settle(Match(st, t).0, t).1;
    if f != [] { PairedOne(f[0]); }
    PairedConcat(Match(st, t).1, f);
    PairedOne(e);
    PairedConcat([e], MatchAndRest(st, t).1);
  }

  lemma ActPaired(st: State, c: Command, i: nat)
    requires Inv(st, {})
    requires if c.New? then c.symbol < |st.books| else IsLive(st, i)
    ensures Paired(Act(st, c, i).1)
  {
    if c.New? && Admitted(st, c) {
      AllocInv(st, OrderFor(c));
      var a := Alloc(st, OrderFor(c));
      MatchAndRestPaired(a, st.free[0], Accepted(Ord(a, st.free[0])));
    } else if c.Replace? && Replaceable(st, c) && !KeepsPlace(Ord(st, i), c) {
      var o := Revised(Ord(st, i), c);
      ReplaceInv(st, i, o);
      MatchAndRestPaired(SetOrd(Detach(st, i), i, o), i, Replaced(o));
    } else {
      PairedOne(Act(st, c, i).1[0]);
    }
  }

  /** Over any run, every Trade pairs one maker fill and one taker fill of equal price and quantity. */
  lemma {:induction false} RunPaired(st: State, cs: seq<Command>)
    requires Inv(st, {})
    ensures Paired(Run(st, cs).1)
    decreases |cs|
  {
    if cs != [] {
      StepInv(st, cs[0]);
      StepPaired(st, cs[0]);
      var a := Step(st, cs[0]);
      RunPaired(a.0, cs[1..]);
      PairedConcat(a.1, Run(a.0, cs[1..]).1);
    }
  }

  lemma WithTopPaired(st: State, y: nat, a: (State, seq<Event>))
    requires Paired(a.1) && y < |st.books| && y < |a.0.books|
    ensures Paired(WithTop(st, y, a).1)
  {
    var top := if TopOf(a.0, y) != TopOf(st, y) then [Top(y, TopOf(a.0, y))] else [];
    if top != [] { PairedOne(top[0]); }
    PairedConcat(a.1, top);
  }

  lemma StepPaired(st: State, c: Command)
    requires Inv(st, {})
    ensures Paired(Step(st, c).1)
  {
    if c.New? {
      PairedOne(Reject(c, BadSymbol));
      if c.symbol < |st.books| {
        ActInv(st, c, 0);
        ActPaired(st, c, 0);
        WithTopPaired(st, c.symbol, Act(st, c, 0));
      }
    } else {
      PairedOne(Reject(c, UnknownOrder));
      PairedOne(Reject(c, NotOwner));
      var f := Find(st, c.id);
      if f.Some? {
        ActInv(st, c, f.value);
        ActPaired(st, c, f.value);
        WithTopPaired(st, Ord(st, f.value).symbol, Act(st, c, f.value));
      }
    }
  }
}
