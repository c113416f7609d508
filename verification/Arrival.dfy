/**
 Time priority over whole runs: at every price, orders stand in the order in which they joined the queue. An order
 joins when it is accepted, and again when a replacement changes its price or makes it larger; fills and smaller
 replacements leave it where it is.
 */
module Arrival {
  import opened Types
  import opened Queues
  import opened Reference
  import opened Ledger

  /** For each id, the number of the command by which its order joined a queue. */
  type Stamps = map<nat, nat>

  /** The stamps after command number `k`, whose first event is `e`, given the open orders before it. */
  function Stamp(m: Stamps, l: Ledger, k: nat, e: Event): Stamps {
    match e
    case Accepted(o) => m[o.id := k]
    case Replaced(o) => if o.id in l && o.price == l[o.id].price && o.qty <= l[o.id].qty then m else m[o.id := k]
    case _ => m
  }

  function StampsAfter(m: Stamps, l: Ledger, k: nat, st: State, cs: seq<Command>): Stamps
    requires Inv(st, {})
    decreases |cs|
  {
    if cs == [] then m
    else
      StepInv(st, cs[0]);
      var a := Step(st, cs[0]);
      var m' := if a.1 == [] then m else Stamp(m, l, k, a.1[0]);
      StampsAfter(m', Replay(l, a.1), k + 1, a.0, cs[1..])
  }

  // ---------------------------------------------------------------- queues in order

  function StampOf(m: Stamps, st: State, i: nat): nat {
    if IsLive(st, i) && Ord(st, i).id in m then m[Ord(st, i).id] else 0
  }

  /** The order in slot `i` joined before command `k`. */
  predicate StampedBefore(m: Stamps, st: State, i: nat, k: nat) {
    IsLive(st, i) && Ord(st, i).id in m && m[Ord(st, i).id] < k
  }

  ghost predicate QueueInOrder(m: Stamps, st: State, l: seq<nat>, k: nat) {
    && (forall i | i in l :: StampedBefore(m, st, i, k))
    && (forall a, b | 0 <= a < b < |l| :: StampOf(m, st, l[a]) < StampOf(m, st, l[b]))
  }

  /** Every queue is in order, all its orders having joined before command `k`. */
  ghost predicate InOrder(m: Stamps, st: State, k: nat) {
    forall key: Key :: QueueInOrder(m, st, Q(st.books, key), k)
  }

  /** A queue stays in order if its orders keep their stamps. */
  lemma QueueKept(m: Stamps, m': Stamps, st: State, r: State, l: seq<nat>, k: nat)
    requires QueueInOrder(m, st, l, k)
    requires forall i | i in l :: StampedBefore(m', r, i, k) && StampOf(m', r, i) == StampOf(m, st, i)
    ensures QueueInOrder(m', r, l, k)
  {
  }

  /** Where the a-th order of the queue stood before the q-th left it. */
  function Was(q: nat, a: nat): nat {
    if a < q then a else a + 1
  }

  lemma DropAt(l: seq<nat>, q: nat, a: nat)
    requires q < |l| && a < |l| - 1
    ensures (l[..q] + l[q + 1..])[a] == l[Was(q, a)]
  {
  }

  lemma QueueDrop(m: Stamps, st: State, l: seq<nat>, w: seq<nat>, q: nat, k: nat)
    requires QueueInOrder(m, st, l, k) && q < |l| && |w| == |l| - 1 && forall a: nat | a < |w| :: w[a] == l[Was(q, a)]
    ensures QueueInOrder(m, st, w, k)
  {
    forall j | j in w ensures StampedBefore(m, st, j, k) {
      var a: nat :| a < |w| && w[a] == j;
      assert l[Was(q, a)] in l;
    }
    forall a, b | 0 <= a < b < |w| ensures StampOf(m, st, w[a]) < StampOf(m, st, w[b]) {
      assert w[a] == l[Was(q, a)] && w[b] == l[Was(q, b)];
    }
  }

  lemma QueueWithout(m: Stamps, st: State, l: seq<nat>, i: nat, k: nat)
    requires QueueInOrder(m, st, l, k) && Distinct(l) && i in l
    ensures QueueInOrder(m, st, Without(l, i), k)
  {
    var q :| 0 <= q < |l| && l[q] == i;
    WithoutAt(l, q);
    var w := Without(l, i);
    forall a: nat | a < |w| ensures w[a] == l[Was(q, a)] {
      DropAt(l, q, a);
    }
    QueueDrop(m, st, l, w, q, k);
  }

  lemma QueueCells(m: Stamps, st: State, r: State, l: seq<nat>, k: nat)
    requires QueueInOrder(m, st, l, k) && r.cells == st.cells
    ensures QueueInOrder(m, r, l, k)
  {
  }

  lemma QueueSnoc(m: Stamps, st: State, l: seq<nat>, i: nat, k: nat)
    requires QueueInOrder(m, st, l, k) && StampedBefore(m, st, i, k + 1) && StampOf(m, st, i) == k
    ensures QueueInOrder(m, st, l + [i], k + 1)
  {
    var w := l + [i];
    forall a, b | 0 <= a < b < |w| ensures StampOf(m, st, w[a]) < StampOf(m, st, w[b]) {
      assert w[a] in l;
    }
  }

  lemma LaterStill(m: Stamps, st: State, k: nat)
    requires InOrder(m, st, k)
    ensures InOrder(m, st, k + 1)
  {
    forall key: Key ensures QueueInOrder(m, st, Q(st.books, key), k + 1) {
      assert QueueInOrder(m, st, Q(st.books, key), k);
    }
  }

  /** The listed orders keep their ids, and their stamps if the subject `t`, which is not listed, gets a new one. */
  lemma ListedKept(m: Stamps, m': Stamps, st: State, r: State, k: nat)
    requires InOrder(m, st, k) && r.books == st.books
    requires forall key: Key, i: nat | i in Q(st.books, key) ::
               IsLive(r, i) && IsLive(st, i) && Ord(r, i).id == Ord(st, i).id && KeepsStamp(m, m', Ord(st, i).id)
    ensures InOrder(m', r, k)
  {
    forall key: Key ensures QueueInOrder(m', r, Q(r.books, key), k) {
      assert QueueInOrder(m, st, Q(st.books, key), k);
      QueueKept(m, m', st, r, Q(st.books, key), k);
    }
  }

  predicate KeepsStamp(m: Stamps, m': Stamps, id: nat) {
    id in m ==> id in m' && m'[id] == m[id]
  }

  lemma DetachQueue(m: Stamps, st: State, i: nat, k: nat, key: Key)
    requires IsLive(st, i) && InBounds(st.books, KeyOf(Ord(st, i))) && InOrder(m, st, k)
    requires var l := Q(st.books, KeyOf(Ord(st, i))); Distinct(l) && i in l
    ensures QueueInOrder(m, Detach(st, i), Q(Detach(st, i).books, key), k)
  {
    var r, l := Detach(st, i), Q(st.books, key);
    assert QueueInOrder(m, st, l, k);
    if key == KeyOf(Ord(st, i)) { QueueWithout(m, st, l, i, k); }
    QueueCells(m, st, r, Q(r.books, key), k);
  }

  lemma DetachInOrder(m: Stamps, st: State, T: set<nat>, i: nat, k: nat)
    requires Inv(st, T) && IsLive(st, i) && i !in T && InOrder(m, st, k)
    ensures InBounds(st.books, KeyOf(Ord(st, i))) && InOrder(m, Detach(st, i), k)
  {
    ListedInBounds(st, T, i);
    assert Distinct(Q(st.books, KeyOf(Ord(st, i))));
    forall key: Key ensures QueueInOrder(m, Detach(st, i), Q(Detach(st, i).books, key), k) {
      DetachQueue(m, st, i, k, key);
    }
  }

  lemma RestInOrder(m: Stamps, st: State, t: nat, k: nat)
    requires InOrder(m, st, k) && IsLive(st, t) && InBounds(st.books, KeyOf(Ord(st, t)))
    requires Ord(st, t).id in m && m[Ord(st, t).id] == k
    ensures InOrder(m, Rest(st, t), k + 1)
  {
    LaterStill(m, st, k);
    var r, at := Rest(st, t), KeyOf(Ord(st, t));
    forall key: Key ensures QueueInOrder(m, r, Q(r.books, key), k + 1) {
      assert QueueInOrder(m, st, Q(st.books, key), k) && QueueInOrder(m, st, Q(st.books, key), k + 1);
      if key == at { QueueSnoc(m, st, Q(st.books, key), t, k); }
      QueueKept(m, m, st, r, Q(r.books, key), k + 1);
    }
  }

  lemma ReleaseInOrder(m: Stamps, st: State, T: set<nat>, i: nat, k: nat)
    requires Inv(st, T) && i in T && InOrder(m, st, k)
    ensures InOrder(m, Release(st, i), k)
  {
    ListedKept(m, m, st, Release(st, i), k);
  }

  // ---------------------------------------------------------------- matching

  lemma HitInOrder(m: Stamps, st: State, t: nat, k: nat)
    requires CanHit(st, t) && InOrder(m, st, k)
    ensures InOrder(m, Hit(st, t), k)
  {
    var mk, x := Maker(st, t), HitQty(st, t);
    var a := SetOrd(st, t, Less(Ord(st, t), x));
    SetOrdInv(st, {t}, t, Less(Ord(st, t), x));
    ListedKept(m, m, st, a, k);
    var b := Less(Ord(st, mk), x);
    if Ord(st, mk).qty > x {
      ListedKept(m, m, a, SetOrd(a, mk, b), k);
    } else {
      DetachInOrder(m, a, {t}, mk, k);
      DetachInv(a, {t}, mk);
      SpentInOrder(m, Detach(a, mk), t, mk, b, k);
      assert Release(Detach(SetOrd(a, mk, b), mk), mk) == Release(SetOrd(Detach(a, mk), mk, b), mk);
    }
  }

  lemma SpentInOrder(m: Stamps, st: State, t: nat, mk: nat, o: Order, k: nat)
    requires Inv(st, {t} + {mk}) && IsLive(st, mk) && InOrder(m, st, k)
    requires o.id == Ord(st, mk).id && o.symbol == Ord(st, mk).symbol
    ensures InOrder(m, Release(SetOrd(st, mk, o), mk), k)
  {
    SetOrdInv(st, {t} + {mk}, mk, o);
    ListedKept(m, m, st, SetOrd(st, mk, o), k);
    ReleaseInOrder(m, SetOrd(st, mk, o), {t} + {mk}, mk, k);
  }

  lemma {:induction false} MatchInOrder(m: Stamps, st: State, t: nat, k: nat)
    requires Matching(st, t) && InOrder(m, st, k)
    ensures InOrder(m, Match(st, t).0, k)
    decreases Ord(st, t).qty
  {
    if NextPrice(st, t) != NO_PRICE {
      HitInv(st, t);
      HitInOrder(m, st, t, k);
      MatchInOrder(m, Hit(st, t), t, k);
    }
  }

  /** An order that joins with command `k` rests behind all others. */
  lemma MatchAndRestInOrder(m: Stamps, st: State, t: nat, k: nat)
    requires Matching(st, t) && CanMatch(st.maxPrice, Ord(st, t)) && InOrder(m, st, k)
    requires Ord(st, t).id in m && m[Ord(st, t).id] == k
    ensures InOrder(m, MatchAndRest(st, t).0, k + 1)
  {
    MatchInv(st, t);
    MatchInOrder(m, st, t, k);
    var r := Match(st, t).0;
    var o := Ord(r, t);
    if o.qty == 0 || o.otype == Market || o.tif == IOC {
      ReleaseInOrder(m, r, {t}, t, k);
      LaterStill(m, Release(r, t), k);
    } else {
      RestInOrder(m, r, t, k);
    }
  }

  // ---------------------------------------------------------------- commands

  /** What a command leaves: queues in order under the stamps its first event gives. */
  ghost predicate LeavesInOrder(m: Stamps, l: Ledger, k: nat, r: (State, seq<Event>)) {
    r.1 != [] && InOrder(Stamp(m, l, k, r.1[0]), r.0, k + 1)
  }

  lemma WithTopInOrder(m: Stamps, l: Ledger, st: State, y: nat, a: (State, seq<Event>), k: nat)
    requires y < |st.books| && y < |a.0.books| && LeavesInOrder(m, l, k, a)
    ensures LeavesInOrder(m, l, k, WithTop(st, y, a))
  {
    assert WithTop(st, y, a).1[0] == a.1[0];
  }

  lemma RefusedInOrder(m: Stamps, l: Ledger, st: State, c: Command, why: Reason, k: nat)
    requires InOrder(m, st, k)
    ensures LeavesInOrder(m, l, k, (st, [Reject(c, why)]))
  {
    LaterStill(m, st, k);
  }

  /** A stamp given to an order that is not listed changes nothing in the queues. */
  lemma NewStamp(m: Stamps, st: State, t: nat, k: nat)
    requires Inv(st, {t}) && IsLive(st, t) && InOrder(m, st, k)
    ensures InOrder(m[Ord(st, t).id := k], st, k)
  {
    IdSlot(st, {t}, t);
    forall key: Key, i: nat | i in Q(st.books, key) ensures Ord(st, i).id != Ord(st, t).id {
      IdSlot(st, {t}, i);
    }
    ListedKept(m, m[Ord(st, t).id := k], st, st, k);
  }

  lemma NewInOrder(m: Stamps, l: Ledger, st: State, c: Command, k: nat)
    requires Inv(st, {}) && c.New? && c.symbol < |st.books| && InOrder(m, st, k)
    ensures LeavesInOrder(m, l, k, OnNew(st, c))
  {
    if Admitted(st, c) {
      AllocInv(st, OrderFor(c));
      var t, a := st.free[0], Alloc(st, OrderFor(c));
      assert t in st.free;
      ListedKept(m, m, st, a, k);
      NewStamp(m, a, t, k);
      MatchAndRestInOrder(m[Ord(a, t).id := k], a, t, k);
    } else {
      LaterStill(m, st, k);
    }
  }

  lemma CancelInOrder(m: Stamps, st: State, i: nat, k: nat)
    requires Inv(st, {}) && IsLive(st, i) && InOrder(m, st, k)
    ensures InOrder(m, OnCancel(st, i).0, k + 1)
  {
    DetachInOrder(m, st, {}, i, k);
    DetachInv(st, {}, i);
    ReleaseInOrder(m, Detach(st, i), {} + {i}, i, k);
    LaterStill(m, OnCancel(st, i).0, k);
  }

  /** An order that leaves its queue and joins another. */
  lemma RejoinInOrder(m: Stamps, st: State, o: Order, i: nat, k: nat)
    requires Inv(st, {}) && IsLive(st, i) && InOrder(m, st, k) && CanMatch(st.maxPrice, o)
    requires o.id == Ord(st, i).id && o.symbol == Ord(st, i).symbol
    ensures InBounds(st.books, KeyOf(Ord(st, i))) && Matching(SetOrd(Detach(st, i), i, o), i)
    ensures InOrder(m[o.id := k], MatchAndRest(SetOrd(Detach(st, i), i, o), i).0, k + 1)
  {
    ReplaceInv(st, i, o);
    DetachInv(st, {}, i);
    DetachInOrder(m, st, {}, i, k);
    var a := SetOrd(Detach(st, i), i, o);
    ListedKept(m, m, Detach(st, i), a, k);
    NewStamp(m, a, i, k);
    MatchAndRestInOrder(m[o.id := k], a, i, k);
  }

  lemma ShrinkInOrder(m: Stamps, st: State, o: Order, i: nat, k: nat)
    requires Inv(st, {}) && IsLive(st, i) && InOrder(m, st, k) && o.id == Ord(st, i).id
    ensures InOrder(m, SetOrd(st, i, o), k + 1)
  {
    ListedKept(m, m, st, SetOrd(st, i, o), k);
    LaterStill(m, SetOrd(st, i, o), k);
  }

  lemma StampReplaced(m: Stamps, l: Ledger, k: nat, st: State, c: Command, i: nat)
    requires Inv(st, {}) && IsLive(st, i) && c.Replace? && Tracks(l, st)
    ensures var o := Revised(Ord(st, i), c);
            Stamp(m, l, k, Replaced(o)) == if KeepsPlace(Ord(st, i), c) then m else m[o.id := k]
  {
    IdSlot(st, {}, i);
    assert TracksAt(l, st, Ord(st, i).id);
    assert CanRest(st.maxPrice, Ord(st, i));
  }

  lemma ReplacedInOrder(m: Stamps, st: State, c: Command, i: nat, k: nat)
    requires Inv(st, {}) && IsLive(st, i) && c.Replace? && Replaceable(st, c) && InOrder(m, st, k)
    ensures var (o, r) := (Revised(Ord(st, i), c), OnReplace(st, c, i));
            && r.1 != [] && r.1[0] == Replaced(o)
            && InOrder(if KeepsPlace(Ord(st, i), c) then m else m[o.id := k], r.0, k + 1)
  {
    var o := Revised(Ord(st, i), c);
    if KeepsPlace(Ord(st, i), c) { ShrinkInOrder(m, st, o, i, k); } else { RejoinInOrder(m, st, o, i, k); }
  }

  lemma ReplaceInOrder(m: Stamps, l: Ledger, st: State, c: Command, i: nat, k: nat)
    requires Inv(st, {}) && IsLive(st, i) && c.Replace? && InOrder(m, st, k) && Tracks(l, st)
    ensures LeavesInOrder(m, l, k, OnReplace(st, c, i))
  {
    if Replaceable(st, c) {
      ReplacedInOrder(m, st, c, i, k);
      StampReplaced(m, l, k, st, c, i);
    } else {
      RefusedInOrder(m, l, st, c, if c.qty == 0 then BadQty else BadPrice, k);
    }
  }

  lemma ActInOrder(m: Stamps, l: Ledger, st: State, c: Command, i: nat, k: nat)
    requires Inv(st, {}) && InOrder(m, st, k) && Tracks(l, st)
    requires if c.New? then c.symbol < |st.books| else IsLive(st, i)
    ensures LeavesInOrder(m, l, k, Act(st, c, i))
  {
    match c
    case New(_, _, _, _, _, _, _, _) => NewInOrder(m, l, st, c, k);
    case Cancel(_, _, _) => CancelInOrder(m, st, i, k);
    case Replace(_, _, _, _, _) => ReplaceInOrder(m, l, st, c, i, k);
  }

  lemma StepInOrder(m: Stamps, l: Ledger, st: State, c: Command, k: nat)
    requires Inv(st, {}) && InOrder(m, st, k) && Tracks(l, st)
    ensures LeavesInOrder(m, l, k, Step(st, c))
  {
    if c.New? {
      RefusedInOrder(m, l, st, c, BadSymbol, k);
      if c.symbol < |st.books| {
        ActInv(st, c, 0);
        ActInOrder(m, l, st, c, 0, k);
        WithTopInOrder(m, l, st, c.symbol, Act(st, c, 0), k);
      }
    } else {
      RefusedInOrder(m, l, st, c, UnknownOrder, k);
      RefusedInOrder(m, l, st, c, NotOwner, k);
      var f := Find(st, c.id);
      if f.Some? {
        ActInv(st, c, f.value);
        ActInOrder(m, l, st, c, f.value, k);
        WithTopInOrder(m, l, st, Ord(st, f.value).symbol, Act(st, c, f.value), k);
      }
    }
  }

  lemma {:induction false} RunInOrder(m: Stamps, l: Ledger, st: State, cs: seq<Command>, k: nat)
    requires Inv(st, {}) && InOrder(m, st, k) && Tracks(l, st)
    ensures InOrder(StampsAfter(m, l, k, st, cs), Run(st, cs).0, k + |cs|)
    decreases |cs|
  {
    if cs != [] {
      var a := Step(st, cs[0]);
      StepInv(st, cs[0]);
      StepInOrder(m, l, st, cs[0], k);
      StepAccounts(l, st, cs[0]);
      RunInOrder(Stamp(m, l, k, a.1[0]), Replay(l, a.1), a.0, cs[1..], k + 1);
    }
  }

  /** After every sequence of commands, of two orders resting at one price the one that joined first stands first. */
  lemma TimePriority(symbols: nat, maxPrice: nat, capacity: nat, cs: seq<Command>, key: Key, a: nat, b: nat)
    requires symbols <= 0xFFFF && capacity <= NULL
    ensures Inv(Init(symbols, maxPrice, capacity), {})
    ensures var (st, m) := (Run(Init(symbols, maxPrice, capacity), cs).0,
                            StampsAfter(map[], map[], 0, Init(symbols, maxPrice, capacity), cs));
            var q := Q(st.books, key);
            a < b < |q| ==>
              && IsLive(st, q[a]) && IsLive(st, q[b])
              && Ord(st, q[a]).id in m && Ord(st, q[b]).id in m && m[Ord(st, q[a]).id] < m[Ord(st, q[b]).id]
  {
    InitInv(symbols, maxPrice, capacity);
    InitTracked(symbols, maxPrice, capacity);
    var s := Init(symbols, maxPrice, capacity);
    RunInOrder(map[], map[], s, cs, 0);
    var st, m := Run(s, cs).0, StampsAfter(map[], map[], 0, s, cs);
    var q := Q(st.books, key);
    assert QueueInOrder(m, st, q, |cs|);
    if a < b < |q| { assert q[a] in q && q[b] in q && StampOf(m, st, q[a]) < StampOf(m, st, q[b]); }
  }
}
