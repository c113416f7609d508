/**
 Whose order is whose: every event answers the command being processed, and tells of an order under the session,
 tag, symbol and side of the New command its id was issued to. That session, and no other, may cancel or replace it.
 */
module Owners {
  import opened Types
  import opened Queues
  import opened Reference
  import opened Ledger

  // ---------------------------------------------------------------- what a command is answered

  /** The order is the one the New command asks for. */
  predicate Opens(c: Command, o: Order) {
    && c.New? && Belongs(c, o)
    && o.price == (if c.otype == Limit then c.price else 0) && o.qty == c.qty
  }

  /** The order was opened by the New command, whatever its price and quantity are by now. */
  predicate Belongs(c: Command, o: Order) {
    && c.New? && o.session == c.session && o.tag == c.tag
    && o.symbol == c.symbol && o.side == c.side && o.otype == c.otype && o.tif == c.tif
  }

  /** The id a command is about: the one its order is given, or the one it names. */
  function Subject(c: Command, ev: seq<Event>): nat {
    if !c.New? then c.id else if ev != [] && ev[0].Accepted? then ev[0].order.id else 0
  }

  /**
   The event answers command `c`, which is about `id`: an order is accepted or replaced on the terms commanded, what
   is left of it is cancelled, a taker's fill is its own and a maker's is not, a rejection goes to who asked.
   */
  predicate Answers(c: Command, id: nat, e: Event) {
    match e
    case Accepted(o) => o.id == id && Opens(c, o)
    case Replaced(o) => o.id == id && c.Replace? && o.price == c.price && o.qty == c.qty
    case Cancelled(o) => o.id == id
    case Fill(o, maker, _, _) => maker <==> o.id != id
    case Rejected(session, tag, of, symbol, _) =>
      && session == c.session && tag == c.tag
      && of == (if c.New? then 0 else c.id) && symbol == (if c.New? then c.symbol else 0)
    case _ => true
  }

  ghost predicate AllAnswer(c: Command, id: nat, ev: seq<Event>) {
    forall e | e in ev :: Answers(c, id, e)
  }

  lemma HitAnswers(st: State, t: nat, c: Command)
    requires CanHit(st, t)
    ensures AllAnswer(c, Ord(st, t).id, HitEvents(st, t))
  {
    IdSlot(st, {t}, t);
    IdSlot(st, {t}, Maker(st, t));
  }

  lemma {:induction false} MatchAnswers(st: State, t: nat, c: Command)
    requires Matching(st, t)
    ensures AllAnswer(c, Ord(st, t).id, Match(st, t).1)
    decreases Ord(st, t).qty
  {
    if NextPrice(st, t) != NO_PRICE {
      HitInv(st, t);
      HitAnswers(st, t, c);
      MatchAnswers(Hit(st, t), t, c);
    }
  }

  lemma MatchAndRestAnswers(st: State, t: nat, c: Command)
    requires Matching(st, t) && CanMatch(st.maxPrice, Ord(st, t))
    ensures AllAnswer(c, Ord(st, t).id, MatchAndRest(st, t).1)
  {
    MatchInv(st, t);
    MatchAnswers(st, t, c);
  }

  lemma NewAnswers(st: State, c: Command)
    requires Inv(st, {}) && c.New? && c.symbol < |st.books|
    ensures AllAnswer(c, Subject(c, OnNew(st, c).1), OnNew(st, c).1)
  {
    if Admitted(st, c) {
      AllocInv(st, OrderFor(c));
      MatchAndRestAnswers(Alloc(st, OrderFor(c)), st.free[0], c);
    }
  }

  lemma ReplaceAnswers(st: State, c: Command, i: nat)
    requires Inv(st, {}) && IsLive(st, i) && c.Replace? && Ord(st, i).id == c.id
    ensures AllAnswer(c, c.id, OnReplace(st, c, i).1)
  {
    if Replaceable(st, c) && !KeepsPlace(Ord(st, i), c) {
      var o := Revised(Ord(st, i), c);
      ReplaceInv(st, i, o);
      MatchAndRestAnswers(SetOrd(Detach(st, i), i, o), i, c);
    }
  }

  lemma ActAnswers(st: State, c: Command, i: nat)
    requires Inv(st, {})
    requires if c.New? then c.symbol < |st.books| else IsLive(st, i) && Ord(st, i).id == c.id
    ensures Act(st, c, i).1 != [] && AllAnswer(c, Subject(c, Act(st, c, i).1), Act(st, c, i).1)
  {
    match c
    case New(_, _, _, _, _, _, _, _) => NewAnswers(st, c);
    case Cancel(_, _, _) =>
    case Replace(_, _, _, _, _) => ReplaceAnswers(st, c, i);
  }

  lemma WithTopAnswers(st: State, y: nat, a: (State, seq<Event>), c: Command)
    requires y < |st.books| && y < |a.0.books| && a.1 != [] && AllAnswer(c, Subject(c, a.1), a.1)
    ensures var ev := WithTop(st, y, a).1; AllAnswer(c, Subject(c, ev), ev)
  {
    assert WithTop(st, y, a).1[0] == a.1[0];
  }

  /** Every event of a command answers it. */
  lemma StepAnswers(st: State, c: Command)
    requires Inv(st, {})
    ensures AllAnswer(c, Subject(c, Step(st, c).1), Step(st, c).1)
  {
    if c.New? {
      if c.symbol < |st.books| {
        ActInv(st, c, 0);
        ActAnswers(st, c, 0);
        WithTopAnswers(st, c.symbol, Act(st, c, 0), c);
      }
    } else {
      var f := Find(st, c.id);
      if f.Some? {
        ActInv(st, c, f.value);
        ActAnswers(st, c, f.value);
        WithTopAnswers(st, Ord(st, f.value).symbol, Act(st, c, f.value), c);
      }
    }
  }

  // ---------------------------------------------------------------- the order of events

  /** When in the course of a command an event comes. */
  function Stage(e: Event): nat {
    match e
    case Accepted(_) => 0
    case Rejected(_, _, _, _, _) => 0
    case Replaced(_) => 0
    case Fill(_, _, _, _) => 1
    case Trade(_, _, _, _) => 1
    case Cancelled(_) => 2
    case Top(_, _) => 3
  }

  /** First the answer, then the trades, then a cancelled order, then the top; of all but trades at most one. */
  ghost predicate Staged(ev: seq<Event>) {
    forall j, k | 0 <= j < k < |ev| :: Stage(ev[j]) < Stage(ev[k]) || Stage(ev[j]) == Stage(ev[k]) == 1
  }

  ghost predicate AllAt(ev: seq<Event>, lo: nat, hi: nat) {
    forall e | e in ev :: lo <= Stage(e) <= hi
  }

  lemma StagedConcat(a: seq<Event>, b: seq<Event>, mid: nat)
    requires Staged(a) && Staged(b) && AllAt(a, 0, mid) && AllAt(b, mid + 1, 3)
    ensures Staged(a + b)
  {
    var ev := a + b;
    forall j, k | 0 <= j < k < |ev| ensures Stage(ev[j]) < Stage(ev[k]) || Stage(ev[j]) == Stage(ev[k]) == 1 {
      if j < |a| <= k { assert ev[j] in a && ev[k] in b; }
    }
  }

  lemma AllAtConcat(a: seq<Event>, b: seq<Event>, lo: nat, hi: nat)
    requires AllAt(a, lo, hi) && AllAt(b, lo, hi)
    ensures AllAt(a + b, lo, hi)
  {
  }

  lemma HitStaged(st: State, t: nat)
    requires CanHit(st, t)
    ensures AllAt(HitEvents(st, t), 1, 1)
  {
  }

  lemma {:induction false} MatchStaged(st: State, t: nat)
    requires Matching(st, t)
    ensures AllAt(Match(st, t).1, 1, 1)
    decreases Ord(st, t).qty
  {
    if NextPrice(st, t) != NO_PRICE {
      HitInv(st, t);
      HitStaged(st, t);
      MatchStaged(Hit(st, t), t);
      AllAtConcat(HitEvents(st, t), Match(Hit(st, t), t).1, 1, 1);
    }
  }

  lemma SettleStaged(st: State, t: nat)
    requires IsLive(st, t) && (Ord(st, t).otype == Limit ==> InBounds(st.books, KeyOf(Ord(st, t))))
    ensures Staged(Settle(st, t).1) && AllAt(Settle(st, t).1, 2, 2)
  {
  }

  lemma TradesStaged(ev: seq<Event>)
    requires AllAt(ev, 1, 1)
    ensures Staged(ev)
  {
    assert forall k | 0 <= k < |ev| :: ev[k] in ev;
  }

  lemma MatchAndRestStaged(st: State, t: nat, e: Event)
    requires Matching(st, t) && CanMatch(st.maxPrice, Ord(st, t)) && Stage(e) == 0
    ensures var ev := [e] + MatchAndRest(st, t).1; Staged(ev) && AllAt(ev, 0, 2)
  {
    MatchInv(st, t);
    MatchStaged(st, t);
    TradesStaged(Match(st, t).1);
    SettleStaged(Match(st, t).0, t);
    var trades, left := Match(st, t).1, Settle(Match(st, t).0, t).1;
    StagedConcat(trades, left, 1);
    StagedConcat([e], trades + left, 0);
  }

  lemma ActStaged(st: State, c: Command, i: nat)
    requires Inv(st, {})
    requires if c.New? then c.symbol < |st.books| else IsLive(st, i)
    ensures Staged(Act(st, c, i).1) && AllAt(Act(st, c, i).1, 0, 2)
  {
    if c.New? && Admitted(st, c) {
      AllocInv(st, OrderFor(c));
      var a := Alloc(st, OrderFor(c));
      MatchAndRestStaged(a, st.free[0], Accepted(Ord(a, st.free[0])));
    } else if c.Replace? && Replaceable(st, c) && !KeepsPlace(Ord(st, i), c) {
      var o := Revised(Ord(st, i), c);
      ReplaceInv(st, i, o);
      MatchAndRestStaged(SetOrd(Detach(st, i), i, o), i, Replaced(o));
    }
  }

  lemma WithTopStaged(st: State, y: nat, a: (State, seq<Event>))
    requires y < |st.books| && y < |a.0.books| && Staged(a.1) && AllAt(a.1, 0, 2)
    ensures Staged(WithTop(st, y, a).1)
  {
    StagedConcat(a.1, if TopOf(a.0, y) != TopOf(st, y) then [Top(y, TopOf(a.0, y))] else [], 2);
  }

  /** The events of every command come in that order. */
  lemma StepStaged(st: State, c: Command)
    requires Inv(st, {})
    ensures Staged(Step(st, c).1)
  {
    if c.New? {
      if c.symbol < |st.books| {
        ActInv(st, c, 0);
        ActStaged(st, c, 0);
        WithTopStaged(st, c.symbol, Act(st, c, 0));
      }
    } else {
      var f := Find(st, c.id);
      if f.Some? {
        ActInv(st, c, f.value);
        ActStaged(st, c, f.value);
        WithTopStaged(st, Ord(st, f.value).symbol, Act(st, c, f.value));
      }
    }
  }

  // ---------------------------------------------------------------- whose order it is

  /** The New command each id was last issued to. */
  type Origins = map<nat, Command>

  /** A command seen with the events it got. */
  function Note(m: Origins, c: Command, ev: seq<Event>): Origins {
    if c.New? && ev != [] && ev[0].Accepted? then m[ev[0].order.id := c] else m
  }

  function OriginsAfter(m: Origins, st: State, cs: seq<Command>): Origins
    requires Inv(st, {})
    decreases |cs|
  {
    if cs == [] then m
    else
      StepInv(st, cs[0]);
      OriginsAfter(Note(m, cs[0], Step(st, cs[0]).1), Step(st, cs[0]).0, cs[1..])
  }

  /** Every open order is that of the command its id was issued to. */
  ghost predicate Attributed(m: Origins, l: Ledger) {
    forall id | id in l :: id in m && Belongs(m[id], l[id])
  }

  /** What an event says of an order it says under the session, tag, symbol, side and terms the order was opened with. */
  predicate Tells(m: Origins, e: Event) {
    e.Accepted? || e.Fill? || e.Cancelled? || e.Replaced? ==> e.order.id in m && Belongs(m[e.order.id], e.order)
  }

  ghost predicate AllTell(m: Origins, ev: seq<Event>) {
    forall e | e in ev :: Tells(m, e)
  }

  lemma PostAttributed(m: Origins, l: Ledger, c: Command, id: nat, e: Event)
    requires Attributed(m, l) && Audit(l, e) && Answers(c, id, e)
    requires e.Accepted? ==> id in m && m[id] == c
    ensures Attributed(m, Post(l, e)) && Tells(m, e)
  {
  }

  lemma {:induction false} ReplayAttributed(m: Origins, l: Ledger, c: Command, id: nat, ev: seq<Event>)
    requires Attributed(m, l) && Audits(l, ev) && AllAnswer(c, id, ev)
    requires (exists e | e in ev :: e.Accepted?) ==> id in m && m[id] == c
    ensures Attributed(m, Replay(l, ev)) && AllTell(m, ev)
    decreases |ev|
  {
    if ev != [] {
      PostAttributed(m, l, c, id, ev[0]);
      ReplayAttributed(m, Post(l, ev[0]), c, id, ev[1..]);
      assert forall e | e in ev :: e == ev[0] || e in ev[1..];
    }
  }

  /** Only the first event of a command can accept an order. */
  lemma AcceptsFirst(st: State, c: Command, e: Event)
    requires Inv(st, {}) && e in Step(st, c).1 && e.Accepted?
    ensures c.New? && Step(st, c).1[0].Accepted?
  {
    StepAnswers(st, c);
  }

  lemma StepAttributed(m: Origins, l: Ledger, st: State, c: Command)
    requires Inv(st, {}) && Tracks(l, st) && Attributed(m, l)
    ensures var (a, m') := (Step(st, c), Note(m, c, Step(st, c).1));
            Accounts(l, a) && Attributed(m', Replay(l, a.1)) && AllTell(m', a.1)
  {
    var a := Step(st, c);
    var m' := Note(m, c, a.1);
    StepAccounts(l, st, c);
    StepAnswers(st, c);
    assert a.1 != [] && a.1[0].Accepted? ==> Audit(l, a.1[0]);
    assert Attributed(m', l);
    forall e | e in a.1 && e.Accepted? ensures c.New? && a.1[0].Accepted? {
      AcceptsFirst(st, c, e);
    }
    ReplayAttributed(m', l, c, Subject(c, a.1), a.1);
  }

  /** Every event of the run answers its command, and tells of an order as that of the command its id was issued to. */
  ghost predicate Told(m: Origins, st: State, cs: seq<Command>)
    requires Inv(st, {})
    decreases |cs|
  {
    cs == [] ||
    (var (c, a) := (cs[0], Step(st, cs[0]));
     && AllAnswer(c, Subject(c, a.1), a.1) && AllTell(Note(m, c, a.1), a.1)
     && (StepInv(st, c); Told(Note(m, c, a.1), a.0, cs[1..])))
  }

  lemma {:induction false} RunTold(m: Origins, l: Ledger, st: State, cs: seq<Command>)
    requires Inv(st, {}) && Tracks(l, st) && Attributed(m, l)
    ensures Told(m, st, cs)
    ensures Tracks(Replay(l, Run(st, cs).1), Run(st, cs).0) && Attributed(OriginsAfter(m, st, cs), Replay(l, Run(st, cs).1))
    decreases |cs|
  {
    if cs != [] {
      var c, a := cs[0], Step(st, cs[0]);
      StepInv(st, c);
      StepAnswers(st, c);
      StepAttributed(m, l, st, c);
      RunTold(Note(m, c, a.1), Replay(l, a.1), a.0, cs[1..]);
      ReplayConcat(l, a.1, Run(a.0, cs[1..]).1);
    }
  }

  /** From a new engine, over any run: every event goes to its owner, and every live order is its opener's. */
  lemma EventsReachTheirOwners(symbols: nat, maxPrice: nat, capacity: nat, cs: seq<Command>, i: nat)
    requires symbols <= 0xFFFF && capacity <= NULL
    ensures Inv(Init(symbols, maxPrice, capacity), {}) && Told(map[], Init(symbols, maxPrice, capacity), cs)
    ensures var (st, m) := (Run(Init(symbols, maxPrice, capacity), cs).0,
                            OriginsAfter(map[], Init(symbols, maxPrice, capacity), cs));
            Inv(st, {}) && (IsLive(st, i) ==> Ord(st, i).id in m && Belongs(m[Ord(st, i).id], Ord(st, i)))
  {
    InitInv(symbols, maxPrice, capacity);
    var s := Init(symbols, maxPrice, capacity);
    InitTracked(symbols, maxPrice, capacity);
    RunTold(map[], map[], s, cs);
    RunInv(s, cs);
    var st, l := Run(s, cs).0, Replay(map[], Run(s, cs).1);
    if IsLive(st, i) {
      IdSlot(st, {}, i);
      assert TracksAt(l, st, Ord(st, i).id);
    }
  }

  /**
   Over any run: a Cancel or Replace naming a live order is refused with NotOwner, changing nothing, iff its session
   is not that of the New command the id was issued to.
   */
  lemma NotOwnerIff(symbols: nat, maxPrice: nat, capacity: nat, cs: seq<Command>, c: Command)
    requires symbols <= 0xFFFF && capacity <= NULL && !c.New?
    ensures Inv(Init(symbols, maxPrice, capacity), {})
    ensures var (st, m) := (Run(Init(symbols, maxPrice, capacity), cs).0,
                            OriginsAfter(map[], Init(symbols, maxPrice, capacity), cs));
            && Inv(st, {})
            && (Find(st, c.id).Some? ==>
                  && c.id in m
                  && (Step(st, c) == (st, [Rejected(c.session, c.tag, c.id, 0, NotOwner)]) <==> c.session != m[c.id].session))
  {
    var s := Init(symbols, maxPrice, capacity);
    var i := c.id % TWO32;
    EventsReachTheirOwners(symbols, maxPrice, capacity, cs, i);
    var st := Run(s, cs).0;
    if Find(st, c.id).Some? && Ord(st, i).session == c.session { NotRefused(st, c); }
  }

  lemma NotRefused(st: State, c: Command)
    requires Inv(st, {}) && !c.New? && Find(st, c.id).Some? && Ord(st, Find(st, c.id).value).session == c.session
    ensures Step(st, c).1 != [] && Step(st, c).1[0] != Rejected(c.session, c.tag, c.id, 0, NotOwner)
  {
  }
}
