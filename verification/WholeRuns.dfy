/**
 The differential test over whole runs. The deque books run on their own: all they are told of the engine
 is which commands it accepted and the ids it gave out. They end as the engine's books do, having made the
 same fills in the same order.
 */
module WholeRuns {
  import opened Types
  import opened Queues
  import opened Reference
  import opened DequeBook
  import opened Differential

  type DequeBooks = seq<PerSide<Deques>>

  /** The deque books of all symbols. */
  function BooksOf(st: State): DequeBooks {
    seq(|st.books|, y requires 0 <= y < |st.books| => BookOf(st, y))
  }

  // ---------------------------------------------------------------- looking an order up

  /** A place in the deque books. */
  datatype Spot = Spot(symbol: nat, side: Side, price: nat, k: nat)

  predicate InBooks(bs: DequeBooks, x: Spot) {
    && x.symbol < |bs| && x.price < |bs[x.symbol].Get(x.side)|
    && x.k < |bs[x.symbol].Get(x.side)[x.price]|
  }

  function AtSpot(bs: DequeBooks, x: Spot): RO
    requires InBooks(bs, x)
  {
    bs[x.symbol].Get(x.side)[x.price][x.k]
  }

  predicate RestsAt(bs: DequeBooks, x: Spot, id: nat) {
    InBooks(bs, x) && AtSpot(bs, x).id == id
  }

  /** The order with this id, found in the deques, and its symbol. */
  datatype Found = Found(symbol: nat, o: Resting)

  ghost function Lookup(bs: DequeBooks, id: nat): Option<Found> {
    if exists x :: RestsAt(bs, x, id) then
      var x :| RestsAt(bs, x, id);
      Some(Found(x.symbol, Resting(id, x.side, x.price, AtSpot(bs, x).qty)))
    else None
  }

  /** What rests at a spot is the order of the slot there. */
  lemma SlotAtSpot(st: State, x: Spot) returns (j: nat)
    requires Inv(st, {}) && InBooks(BooksOf(st), x)
    ensures IsLive(st, j) && KeyOf(Ord(st, j)) == Key(x.symbol, x.side, x.price)
    ensures AtSpot(BooksOf(st), x) == RO(Ord(st, j).id, Ord(st, j).qty)
  {
    BookOfGet(st, x.symbol, x.side);
    j := st.books[x.symbol].Get(x.side)[x.price][x.k];
    assert j in Q(st.books, Key(x.symbol, x.side, x.price));
  }

  lemma SpotOfSlot(st: State, i: nat) returns (x: Spot)
    requires Inv(st, {}) && IsLive(st, i)
    ensures RestsAt(BooksOf(st), x, Ord(st, i).id)
  {
    var o := Ord(st, i);
    ListedInBounds(st, {}, i);
    BookOfGet(st, o.symbol, o.side);
    var l := Q(st.books, KeyOf(o));
    var k :| 0 <= k < |l| && l[k] == i;
    x := Spot(o.symbol, o.side, o.price, k);
  }

  /** Looking a live order up in the deques finds its symbol, side, price and quantity. */
  lemma LookupIs(st: State, i: nat)
    requires Inv(st, {}) && IsLive(st, i)
    ensures Lookup(BooksOf(st), Ord(st, i).id) == Some(Found(Ord(st, i).symbol, AsResting(Ord(st, i))))
  {
    var bs, o := BooksOf(st), Ord(st, i);
    var y := SpotOfSlot(st, i);
    forall x | RestsAt(bs, x, o.id)
      ensures Found(x.symbol, Resting(o.id, x.side, x.price, AtSpot(bs, x).qty)) == Found(o.symbol, AsResting(o))
    {
      var j := SlotAtSpot(st, x);
      DistinctIds(st, {}, i, j);
    }
  }

  // ---------------------------------------------------------------- the reference on its own

  /** A command the engine accepted, with the id of the order it created or names. */
  datatype Input = Input(c: Command, id: nat)

  /** The order a command is about: a new one as the command says, or the one its id finds in the deques. */
  ghost function About(bs: DequeBooks, x: Input): Option<Found> {
    match x.c
    case New(_, _, symbol, side, _, _, price, qty) => Some(Found(symbol, Resting(x.id, side, price, qty)))
    case Cancel(_, _, _) => Lookup(bs, x.id)
    case Replace(_, _, _, _, _) => Lookup(bs, x.id)
  }

  ghost predicate Applies(bs: DequeBooks, c: Command, f: Found) {
    && f.symbol < |bs|
    && (forall s: Side :: Positive(bs[f.symbol].Get(s)))
    && (c.New? && c.otype == Limit ==> 0 <= c.price < |bs[f.symbol].Get(c.side)|)
    && (c.Replace? ==> 0 <= c.price < |bs[f.symbol].Get(f.o.side)|)
  }

  /** One input: the books after it, and its fills; None if the books know no such order. */
  ghost function RefStep(bs: DequeBooks, x: Input): Option<(DequeBooks, seq<RefFill>)> {
    var f := About(bs, x);
    if f.None? || !Applies(bs, x.c, f.value) then None
    else
      var m := Model(bs[f.value.symbol], x.c, f.value.o);
      Some((bs[f.value.symbol := m.0], m.1))
  }

  ghost function RefRun(bs: DequeBooks, xs: seq<Input>): Option<(DequeBooks, seq<RefFill>)>
    decreases |xs|
  {
    if xs == [] then Some((bs, []))
    else
      var m := RefStep(bs, xs[0]);
      if m.None? then None
      else
        var r := RefRun(m.value.0, xs[1..]);
        if r.None? then None else Some((r.value.0, m.value.1 + r.value.1))
  }

  // ---------------------------------------------------------------- what the engine tells

  /** A command was taken if its first event is no rejection. */
  predicate WasTaken(ev: seq<Event>) {
    ev != [] && !ev[0].Rejected?
  }

  function InputOf(c: Command, ev: seq<Event>): Input {
    Input(c, if !c.New? then c.id else if ev != [] && ev[0].Accepted? then ev[0].order.id else 0)
  }

  /** The commands of a run that were taken, as its events tell. */
  function Inputs(st: State, cs: seq<Command>): seq<Input>
    requires Inv(st, {})
    decreases |cs|
  {
    if cs == [] then []
    else
      StepInv(st, cs[0]);
      var a := Step(st, cs[0]);
      var rest := Inputs(a.0, cs[1..]);
      if WasTaken(a.1) then [InputOf(cs[0], a.1)] + rest else rest
  }

  /** The first event tells whether a command was refused, and the id of a new order. */
  lemma FrontTells(st: State, c: Command)
    requires Inv(st, {})
    ensures WasTaken(Step(st, c).1) <==> Verdict(st, c).None?
    ensures Verdict(st, c).None? ==> InputOf(c, Step(st, c).1).id == Subject(st, c).id
  {
    if Verdict(st, c).Some? {
      RefusedChangesNothing(st, c);
    } else if c.New? {
      NewModelled(st, c);
    }
  }

  // ---------------------------------------------------------------- the engine against it

  lemma AboutIs(st: State, c: Command)
    requires Inv(st, {}) && Verdict(st, c).None?
    ensures var f := About(BooksOf(st), Input(c, Subject(st, c).id));
            && f.Some? && f.value.symbol == Subject(st, c).symbol
            && (!c.New? ==> f.value.o == AsResting(Subject(st, c))) && f.value.o.id == Subject(st, c).id
  {
    if !c.New? { LookupIs(st, Find(st, c.id).value); }
  }

  /** A new order is known by its id alone. */
  lemma NewById(b: PerSide<Deques>, c: Command, o: Resting, o': Resting)
    requires c.New? && o.id == o'.id && (forall s: Side :: Positive(b.Get(s)))
    requires c.otype == Limit ==> 0 <= c.price < |b.Get(c.side)|
    ensures Model(b, c, o) == Model(b, c, o')
  {
  }

  lemma BooksAfter(st: State, c: Command)
    requires Inv(st, {}) && Verdict(st, c).None?
    ensures var (o, r) := (Subject(st, c), Step(st, c).0);
            |r.books| == |st.books| && BooksOf(r) == BooksOf(st)[o.symbol := BookOf(r, o.symbol)]
  {
    var (o, r) := (Subject(st, c), Step(st, c).0);
    StepOnBook(st, c);
    forall y: nat | y < |st.books| && y != o.symbol ensures BookOf(r, y) == BookOf(st, y) {
      OtherBooksUntouched(st, c, y);
    }
  }

  /**
   An accepted command does to the engine's books what the reference does to its own, given only the
   command and the id: the same deques at every price, and the same maker fills in the same order.
   */
  lemma StepModelled(st: State, c: Command)
    requires Inv(st, {}) && Verdict(st, c).None?
    ensures RefStep(BooksOf(st), Input(c, Subject(st, c).id)) == Some((BooksOf(Step(st, c).0), MakerFills(Step(st, c).1)))
  {
    var (bs, o) := (BooksOf(st), Subject(st, c));
    AboutIs(st, c);
    StepOnBook(st, c);
    BooksAfter(st, c);
    var f := About(bs, Input(c, o.id)).value;
    assert bs[o.symbol] == BookOf(st, o.symbol);
    assert Applies(bs, c, f);
    if c.New? { NewById(bs[o.symbol], c, f.o, AsResting(o)); }
  }

  lemma RefRunCons(bs: DequeBooks, x: Input, mid: DequeBooks, now: seq<RefFill>,
                   xs: seq<Input>, end: DequeBooks, then': seq<RefFill>)
    requires RefStep(bs, x) == Some((mid, now)) && RefRun(mid, xs) == Some((end, then'))
    ensures RefRun(bs, [x] + xs) == Some((end, now + then'))
  {
    assert ([x] + xs)[1..] == xs;
  }

  lemma RefusedFills(st: State, c: Command)
    requires Inv(st, {}) && Verdict(st, c).Some?
    ensures Step(st, c).0 == st && MakerFills(Step(st, c).1) == []
  {
    RefusedChangesNothing(st, c);
    NoFill(Reject(c, Verdict(st, c).value), []);
    assert [Reject(c, Verdict(st, c).value)] + [] == [Reject(c, Verdict(st, c).value)];
  }

  /** For every sequence of commands: same deque at every price of every book, same fills in the same order. */
  lemma {:induction false} RunModelled(st: State, cs: seq<Command>)
    requires Inv(st, {})
    ensures RefRun(BooksOf(st), Inputs(st, cs)) == Some((BooksOf(Run(st, cs).0), MakerFills(Run(st, cs).1)))
    decreases |cs|
  {
    if cs != [] {
      var c := cs[0];
      var a := Step(st, c);
      StepInv(st, c);
      RunModelled(a.0, cs[1..]);
      var r := Run(a.0, cs[1..]);
      MakerFillsConcat(a.1, r.1);
      FrontTells(st, c);
      if Verdict(st, c).None? {
        StepModelled(st, c);
        RefRunCons(BooksOf(st), InputOf(c, a.1), BooksOf(a.0), MakerFills(a.1),
                   Inputs(a.0, cs[1..]), BooksOf(r.0), MakerFills(r.1));
      } else {
        RefusedFills(st, c);
        assert [] + MakerFills(r.1) == MakerFills(r.1);
      }
    }
  }
}
