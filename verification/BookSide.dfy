/**
 One side of a book as values: its levels, bitmap and cached best price against its FIFOs.
 */
module BookSide {
  import opened Types
  import opened Queues
  import opened Reference
  import opened Pool
  import opened Links
  import opened Bitmap

  datatype SideState = SideState(levels: seq<Level>, bits: seq<Word>, best: int)

  /** Where the side belongs: its symbol, which side it is, and the highest price of the book. */
  datatype Place = Place(symbol: nat, side: Side, maxPrice: nat)

  /** A bit is set exactly when its price is occupied. */
  ghost predicate BitsRep(words: seq<Word>, lv: Levels) {
    forall p: nat | p < 64 * |words| :: BitAt(words, p) == (p < |lv| && lv[p] != [])
  }

  ghost predicate LevelOk(nodes: seq<Node>, levels: seq<Level>, lv: Levels, at: Place, p: nat)
    requires p < |levels| == |lv|
  {
    LevelRep(nodes, levels[p], lv[p], Key(at.symbol, at.side, p))
  }

  ghost predicate LevelsOk(nodes: seq<Node>, levels: seq<Level>, lv: Levels, at: Place) {
    && |levels| == |lv| == at.maxPrice + 1
    && forall p: nat | p <= at.maxPrice :: LevelOk(nodes, levels, lv, at, p)
  }

  ghost predicate SideRep(nodes: seq<Node>, sd: SideState, lv: Levels, at: Place) {
    && LevelsOk(nodes, sd.levels, lv, at)
    && |sd.bits| == at.maxPrice / 64 + 1
    && BitsRep(sd.bits, lv)
    && IsBest(lv, at.side, sd.best)
    && lv[0] == []
  }

  /** Only live orders belonging at `k` differ. */
  ghost predicate OnlyAt(nodes: seq<Node>, nodes': seq<Node>, k: Key) {
    && |nodes'| == |nodes|
    && forall i | 0 <= i < |nodes| && !(nodes[i].live && KeyOf(nodes[i].ord) == k) :: nodes'[i] == nodes[i]
  }

  lemma LiveAtLevel(nodes: seq<Node>, levels: seq<Level>, lv: Levels, at: Place, p: nat, i: nat)
    requires LevelsOk(nodes, levels, lv, at) && p <= at.maxPrice && i in lv[p]
    ensures i < |nodes| && nodes[i].live && KeyOf(nodes[i].ord) == Key(at.symbol, at.side, p)
  {
    assert LevelOk(nodes, levels, lv, at, p);
    var j: nat :| j < |lv[p]| && lv[p][j] == i;
    assert Threaded(nodes, lv[p], j);
  }

  /** A side depends only on the nodes of its own orders. */
  lemma SideFrame(nodes: seq<Node>, nodes': seq<Node>, sd: SideState, lv: Levels, at: Place)
    requires SideRep(nodes, sd, lv, at) && |nodes'| == |nodes|
    requires forall p: nat, i: nat | p <= at.maxPrice && i < |nodes| && i in lv[p] :: nodes'[i] == nodes[i]
    ensures SideRep(nodes', sd, lv, at)
  {
    forall p: nat | p <= at.maxPrice ensures LevelOk(nodes', sd.levels, lv, at, p) {
      assert LevelOk(nodes, sd.levels, lv, at, p);
      LevelFrame(nodes, nodes', sd.levels[p], lv[p], Key(at.symbol, at.side, p));
    }
  }

  /** Replacing one level, when the node changes are confined to its own orders. */
  lemma LevelReplaced(nodes: seq<Node>, nodes': seq<Node>, levels: seq<Level>, lv: Levels, at: Place,
                      p: nat, lvl: Level, l: seq<nat>)
    requires LevelsOk(nodes, levels, lv, at) && p <= at.maxPrice
    requires OnlyAt(nodes, nodes', Key(at.symbol, at.side, p))
    requires LevelRep(nodes', lvl, l, Key(at.symbol, at.side, p))
    ensures LevelsOk(nodes', levels[p := lvl], lv[p := l], at)
  {
    var levels', lv' := levels[p := lvl], lv[p := l];
    forall p': nat | p' <= at.maxPrice ensures LevelOk(nodes', levels', lv', at, p') {
      if p' != p {
        assert LevelOk(nodes, levels, lv, at, p');
        LevelFrame(nodes, nodes', levels[p'], lv[p'], Key(at.symbol, at.side, p'));
      }
    }
  }

  // ---------------------------------------------------------------- best price

  lemma BestAfterInsert(lv: Levels, s: Side, p: nat, l: seq<nat>, b: int)
    requires IsBest(lv, s, b) && p < |lv| && lv[p] == [] && l != []
    ensures IsBest(lv[p := l], s, if b == NO_PRICE || Better(s, p, b) then p else b)
  {
  }

  lemma BestKept(lv: Levels, s: Side, p: nat, l: seq<nat>, b: int)
    requires IsBest(lv, s, b) && p < |lv| && lv[p] != [] && (l != [] || p != b)
    ensures IsBest(lv[p := l], s, b)
  {
  }

  // ---------------------------------------------------------------- insert

  function PushedLevel(lvl: Level, slot: nat, qty: nat): Level {
    Level(if lvl.tail != NULL then lvl.head else slot, slot, (lvl.qty + qty) % TWO32, lvl.count + 1)
  }

  /** The side after Book::insert of an order of quantity `qty` at price `p`. */
  function InsertedSide(sd: SideState, s: Side, p: nat, slot: nat, qty: nat): SideState
    requires p < |sd.levels| && p < 64 * |sd.bits|
  {
    var lvl := PushedLevel(sd.levels[p], slot, qty);
    SideState(sd.levels[p := lvl],
              if lvl.count == 1 then SetBit(sd.bits, p) else sd.bits,
              if lvl.count == 1 && (sd.best == NO_PRICE || Better(s, p, sd.best)) then p else sd.best)
  }

  lemma InsertSide(nodes: seq<Node>, sd: SideState, lv: Levels, at: Place, p: nat, slot: nat)
    requires SideRep(nodes, sd, lv, at) && |nodes| <= NULL
    requires 1 <= p <= at.maxPrice && slot < |nodes| && nodes[slot].live && slot !in lv[p]
    requires KeyOf(nodes[slot].ord) == Key(at.symbol, at.side, p)
    ensures sd.levels[p].tail == NULL || sd.levels[p].tail < |nodes|
    ensures var n := LinkBack(nodes, slot, sd.levels[p].tail);
            && OnlyAt(nodes, n, Key(at.symbol, at.side, p))
            && Cells(n) == Cells(nodes)
            && SideRep(n, InsertedSide(sd, at.side, p, slot, nodes[slot].ord.qty), lv[p := lv[p] + [slot]], at)
  {
    var lvl, l, k := sd.levels[p], lv[p], Key(at.symbol, at.side, p);
    assert LevelOk(nodes, sd.levels, lv, at, p);
    LinkBackRep(nodes, lvl, l, k, slot);
    var n := LinkBack(nodes, slot, lvl.tail);
    if l != [] { LiveAtLevel(nodes, sd.levels, lv, at, p, lvl.tail); }
    LevelReplaced(nodes, n, sd.levels, lv, at, p, PushedLevel(lvl, slot, nodes[slot].ord.qty), l + [slot]);
    if l == [] {
      BestAfterInsert(lv, at.side, p, l + [slot], sd.best);
    } else {
      BestKept(lv, at.side, p, l + [slot], sd.best);
    }
  }

  // ---------------------------------------------------------------- unlink

  /** What the scan must find once the best level has emptied. */
  ghost predicate NextBest(lv: Levels, s: Side, p: nat, r: int) {
    && (r == NO_PRICE || (0 <= r < |lv| && lv[r] != [] && Better(s, p, r)))
    && (forall i | 0 <= i < |lv| && Better(s, p, i) && (r == NO_PRICE || Better(s, i, r)) :: lv[i] == [])
  }

  function PoppedLevel(lvl: Level, o: Node): Level
    requires lvl.count > 0
  {
    Level(if o.prev != NULL then lvl.head else o.next, if o.next != NULL then lvl.tail else o.prev,
          (lvl.qty - o.ord.qty) % TWO32, lvl.count - 1)
  }

  /** The side after Book::unlink of `o` at price `p`; `best'` is what the scan found if it ran. */
  function UnlinkedSide(sd: SideState, p: nat, o: Node, best': int): SideState
    requires p < |sd.levels| && p < 64 * |sd.bits| && sd.levels[p].count > 0
  {
    var lvl := PoppedLevel(sd.levels[p], o);
    SideState(sd.levels[p := lvl], if lvl.count == 0 then ClearBit(sd.bits, p) else sd.bits, best')
  }

  lemma UnlinkSide(nodes: seq<Node>, sd: SideState, lv: Levels, at: Place, p: nat, j: nat, best': int)
    requires SideRep(nodes, sd, lv, at) && |nodes| <= NULL
    requires p <= at.maxPrice && j < |lv[p]|
    requires if |lv[p]| == 1 && sd.best == p then NextBest(lv, at.side, p, best') else best' == sd.best
    ensures CanUnlink(nodes, lv[p][j]) && sd.levels[p].count == |lv[p]|
    ensures var n := Unlinked(nodes, lv[p][j]);
            && OnlyAt(nodes, n, Key(at.symbol, at.side, p))
            && Cells(n) == Cells(nodes)
            && SideRep(n, UnlinkedSide(sd, p, nodes[lv[p][j]], best'), lv[p := lv[p][..j] + lv[p][j + 1..]], at)
  {
    var lvl, l, k := sd.levels[p], lv[p], Key(at.symbol, at.side, p);
    var l' := l[..j] + l[j + 1..];
    assert LevelOk(nodes, sd.levels, lv, at, p);
    UnlinkedRep(nodes, lvl, l, k, j);
    UnlinkTouches(nodes, sd.levels, lv, at, p, j);
    LevelReplaced(nodes, Unlinked(nodes, l[j]), sd.levels, lv, at, p, PoppedLevel(lvl, nodes[l[j]]), l');
    if l' != [] || sd.best != p { BestKept(lv, at.side, p, l', sd.best); }
    assert IsBest(lv[p := l'], at.side, best');
    assert BitsRep(if l' == [] then ClearBit(sd.bits, p) else sd.bits, lv[p := l']);
  }

  lemma UnlinkTouches(nodes: seq<Node>, levels: seq<Level>, lv: Levels, at: Place, p: nat, j: nat)
    requires LevelsOk(nodes, levels, lv, at) && |nodes| <= NULL && p <= at.maxPrice && j < |lv[p]|
    requires CanUnlink(nodes, lv[p][j])
    ensures OnlyAt(nodes, Unlinked(nodes, lv[p][j]), Key(at.symbol, at.side, p))
    ensures Cells(Unlinked(nodes, lv[p][j])) == Cells(nodes)
  {
    var l := lv[p];
    assert LevelOk(nodes, levels, lv, at, p);
    assert Threaded(nodes, l, j);
    LiveAtLevel(nodes, levels, lv, at, p, l[j]);
    if j > 0 { LiveAtLevel(nodes, levels, lv, at, p, l[j - 1]); }
    if j + 1 < |l| { LiveAtLevel(nodes, levels, lv, at, p, l[j + 1]); }
  }

  // ---------------------------------------------------------------- quantities

  lemma RequantitySide(nodes: seq<Node>, sd: SideState, lv: Levels, at: Place, p: nat, j: nat, x: U32)
    requires SideRep(nodes, sd, lv, at) && p <= at.maxPrice && j < |lv[p]| && lv[p][j] < |nodes|
    ensures var i := lv[p][j];
            var o := nodes[i].ord;
            var lvl := sd.levels[p];
            var n := nodes[i := nodes[i].(ord := o.(qty := x))];
            && SideRep(n, sd.(levels := sd.levels[p := lvl.(qty := (lvl.qty - (o.qty - x)) % TWO32)]), lv, at)
            && OnlyAt(nodes, n, Key(at.symbol, at.side, p))
  {
    var i := lv[p][j];
    var o, lvl := nodes[i].ord, sd.levels[p];
    assert LevelOk(nodes, sd.levels, lv, at, p);
    RequantityRep(nodes, lvl, lv[p], Key(at.symbol, at.side, p), j, x);
    LiveAtLevel(nodes, sd.levels, lv, at, p, i);
    LevelReplaced(nodes, nodes[i := nodes[i].(ord := o.(qty := x))], sd.levels, lv, at, p,
                  lvl.(qty := (lvl.qty - (o.qty - x)) % TWO32), lv[p]);
    assert lv[p := lv[p]] == lv;
  }
}
