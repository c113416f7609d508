/**
 The resume protocol: one server lifetime, one client that may lose its connection at any moment and
 resume, sockets that take any number of bytes at a time. In every run each sequence from the client's
 base on is handled exactly once or lies in exactly one Gap.
 */
module Resume {
  import opened Types
  import opened Wire
  import opened Feed
  import opened MdClient

  // ---------------------------------------------------------------- what a client has seen

  /** A frame handled, or a range of frames reported lost. */
  datatype Seen = Got(seqNo: nat, item: Item) | Lost(from: nat, to: nat)

  function SeenOf(f: Frame): seq<Seen> {
    match f
    case Data(n, i) => [Got(n, i)]
    case Gap(a, b) => [Lost(a, b)]
    case Heartbeat(_, _) => []
  }

  function SeenAll(fs: seq<Frame>): seq<Seen> {
    if fs == [] then [] else SeenOf(fs[0]) + SeenAll(fs[1..])
  }

  predicate Covers(x: Seen, n: nat) {
    match x
    case Got(m, _) => n == m
    case Lost(a, b) => a <= n < b
  }

  /** Laid end to end, `seen` covers [base, end), and each frame got is the one published there. */
  predicate Tiles(log: Log, base: nat, seen: seq<Seen>, end: nat)
    decreases |seen|
  {
    if seen == [] then base == end
    else
      var rest := seen[..|seen| - 1];
      match seen[|seen| - 1]
      case Got(n, i) => n + 1 == end && 1 <= n <= |log| && log[n - 1] == i && Tiles(log, base, rest, n)
      case Lost(a, b) => a < b == end && Tiles(log, base, rest, a)
  }

  lemma TilesSnoc(log: Log, base: nat, seen: seq<Seen>, x: Seen)
    requires Tiles(log, base, seen, if x.Got? then x.seqNo else x.from)
    requires if x.Got? then 1 <= x.seqNo <= |log| && log[x.seqNo - 1] == x.item else x.from < x.to
    ensures Tiles(log, base, seen + [x], if x.Got? then x.seqNo + 1 else x.to)
  {
    assert (seen + [x])[..|seen|] == seen;
  }

  lemma {:induction false} TilesGrows(log: Log, base: nat, seen: seq<Seen>, end: nat, more: Log)
    requires Tiles(log, base, seen, end) && log <= more
    ensures Tiles(more, base, seen, end)
    decreases |seen|
  {
    if seen != [] {
      var x := seen[|seen| - 1];
      TilesGrows(log, base, seen[..|seen| - 1], if x.Got? then x.seqNo else x.from, more);
    }
  }

  lemma {:induction false} TilesInside(log: Log, base: nat, seen: seq<Seen>, end: nat, j: nat, n: nat)
    requires Tiles(log, base, seen, end)
    ensures base <= end
    ensures j < |seen| && Covers(seen[j], n) ==> base <= n < end
    decreases |seen|
  {
    if seen != [] {
      var x := seen[|seen| - 1];
      TilesInside(log, base, seen[..|seen| - 1], if x.Got? then x.seqNo else x.from, j, n);
    }
  }

  /** Every sequence in the range is covered, and by one item only. */
  lemma {:induction false} ExactlyOnce(log: Log, base: nat, seen: seq<Seen>, end: nat, n: nat) returns (k: nat)
    requires Tiles(log, base, seen, end) && base <= n < end
    ensures k < |seen| && Covers(seen[k], n)
    ensures forall j: nat | j < |seen| && Covers(seen[j], n) :: j == k
    ensures seen[k].Got? ==> 1 <= n <= |log| && seen[k].item == log[n - 1]
    decreases |seen|
  {
    var last := |seen| - 1;
    var x := seen[last];
    var mid, rest := if x.Got? then x.seqNo else x.from, seen[..last];
    if n < mid {
      k := ExactlyOnce(log, base, rest, mid, n);
      forall j: nat | j < |seen| && Covers(seen[j], n) ensures j == k {
        assert j < last;
        assert rest[j] == seen[j];
      }
    } else {
      k := last;
      forall j: nat | j < last ensures !Covers(seen[j], n) {
        assert rest[j] == seen[j];
        TilesInside(log, base, rest, mid, j, n);
      }
    }
  }

  /** How many frames were got, and how many reported lost. */
  function GotCount(seen: seq<Seen>): nat {
    if seen == [] then 0 else (if seen[|seen| - 1].Got? then 1 else 0) + GotCount(seen[..|seen| - 1])
  }

  function LostCount(seen: seq<Seen>): int {
    if seen == [] then 0
    else
      var x := seen[|seen| - 1];
      (if x.Lost? then x.to - x.from else 0) + LostCount(seen[..|seen| - 1])
  }

  /** The sequence the client expects next; until it has one, the first of this connection. */
  function Expected(c: Client, start: nat): nat {
    if c.next != 0 then c.next else start
  }

  /** The counters are those of what was seen, and nothing was unexpected. */
  predicate Counted(c: Client, seen: seq<Seen>) {
    c.jumps == 0 && c.frames == GotCount(seen) && c.lost == LostCount(seen) && c.gaps == |seen| - GotCount(seen)
  }

  /** The counters say what was seen since `base`, nothing was unexpected, and forward feeds leave no hole. */
  predicate Accounted(log: Log, forward: bool, base: nat, c: Client, seen: seq<Seen>) {
    && Counted(c, seen)
    && (if c.next == 0 then seen == []
        else c.frames + c.lost == c.next - base && (forward ==> Tiles(log, base, seen, c.next)))
  }

  function BaseAfter(base: nat, c: Client, start: nat, fs: seq<Frame>): nat {
    if c.next == 0 && fs != [] then start else base
  }

  lemma CountSnoc(seen: seq<Seen>, x: Seen)
    ensures GotCount(seen + [x]) == GotCount(seen) + (if x.Got? then 1 else 0)
    ensures LostCount(seen + [x]) == LostCount(seen) + (if x.Lost? then x.to - x.from else 0)
  {
    assert (seen + [x])[..|seen|] == seen;
  }

  lemma HandleCounts(c: Client, seen: seq<Seen>, f: Frame)
    requires Counted(c, seen) && (f.Data? ==> c.next == 0 || f.seqNo == c.next)
    ensures Counted(Handle(c, f), seen + SeenOf(f))
  {
    if f.Heartbeat? {
      assert seen + SeenOf(f) == seen;
    } else {
      CountSnoc(seen, SeenOf(f)[0]);
    }
  }

  lemma HandleOne(log: Log, forward: bool, start: nat, base: nat, c: Client, seen: seq<Seen>, f: Frame)
    requires start >= 1 && Accounted(log, forward, base, c, seen) && After(log, forward, Expected(c, start), f).Some?
    ensures Handle(c, f).next == After(log, forward, Expected(c, start), f).value >= 1
    ensures Accounted(log, forward, BaseAfter(base, c, start, [f]), Handle(c, f), seen + SeenOf(f))
  {
    HandleCounts(c, seen, f);
    if f.Heartbeat? {
      assert seen + SeenOf(f) == seen;
    } else if forward {
      TilesSnoc(log, BaseAfter(base, c, start, [f]), seen, SeenOf(f)[0]);
    }
  }

  /** A client that handles a chain of frames ends where the chain does, its account kept. */
  lemma {:induction false} HandleChain(log: Log, forward: bool, start: nat, base: nat, c: Client, seen: seq<Seen>,
                                       fs: seq<Frame>, end: nat)
    requires start >= 1 && Accounted(log, forward, base, c, seen) && Chain(log, forward, Expected(c, start), fs, end)
    ensures Expected(HandleAll(c, fs), start) == end
    ensures fs != [] ==> HandleAll(c, fs).next != 0
    ensures Accounted(log, forward, BaseAfter(base, c, start, fs), HandleAll(c, fs), seen + SeenAll(fs))
    decreases |fs|
  {
    if fs == [] {
      assert seen + SeenAll(fs) == seen;
    } else {
      HandleOne(log, forward, start, base, c, seen, fs[0]);
      HandleChain(log, forward, start, BaseAfter(base, c, start, [fs[0]]), Handle(c, fs[0]), seen + SeenOf(fs[0]), fs[1..], end);
      Assoc(seen, SeenOf(fs[0]), SeenAll(fs[1..]));
    }
  }

  lemma {:induction false} ChainSplit(log: Log, forward: bool, at: nat, fs: seq<Frame>, k: nat, end: nat) returns (mid: nat)
    requires k <= |fs| && Chain(log, forward, at, fs, end)
    ensures Chain(log, forward, at, fs[..k], mid) && Chain(log, forward, mid, fs[k..], end)
    decreases k
  {
    if k == 0 {
      mid := at;
      assert fs[..k] == [] && fs[k..] == fs;
    } else {
      mid := ChainSplit(log, forward, After(log, forward, at, fs[0]).value, fs[1..], k - 1, end);
      assert fs[..k][1..] == fs[1..][..k - 1] && fs[1..][k - 1..] == fs[k..];
    }
  }

  /** Expectations on a chain stay within the log. */
  lemma {:induction false} ChainEnds(log: Log, forward: bool, at: nat, fs: seq<Frame>, end: nat)
    requires Chain(log, forward, at, fs, end)
    ensures fs != [] ==> 1 <= end <= |log| + 1
    ensures forward ==> at <= end
    decreases |fs|
  {
    if fs != [] { ChainEnds(log, forward, After(log, forward, at, fs[0]).value, fs[1..], end); }
  }

  // ---------------------------------------------------------------- the protocol

  /** A connection: the server's cursor and unsent bytes, the bytes in flight, the bytes the client keeps. */
  datatype Link = Link(subscribed: bool, cursor: nat, backlog: Bytes, wire: Bytes, buf: Bytes)

  const NEW_LINK := Link(false, 0, [], [], [])

  /**
   History, on which nothing depends: the frames on this connection not handled yet, the first sequence
   it promised, the first sequence of the client's account, and what the client has seen.
   */
  datatype History = History(queue: seq<Frame>, start: nat, base: nat, seen: seq<Seen>)

  datatype Net = Net(log: Log, client: Client, ok: bool, link: Link, past: History)

  /**
   The server publishes; the client loses its connection, with whatever is in flight, and connects anew;
   the server reads the Subscribe, pumps the cursor, or gets `n` bytes written; `n` bytes arrive.
   */
  datatype Action = Publish(i: Item) | Connect | Subscribe | Pump(due: bool, ts: U64) | Flush(n: nat) | Receive(n: nat)

  predicate Placed(s: Net) {
    s.link.subscribed ==> 1 <= s.link.cursor <= |s.log| + 1
  }

  predicate Enabled(s: Net, a: Action) {
    match a
    case Publish(_) => |s.log| + 1 < TWO32 - 1
    case Connect => true
    case Subscribe => !s.link.subscribed && s.client.next < TWO64
    case Pump(_, _) => s.link.subscribed
    case Flush(n) => n <= |s.link.backlog|
    case Receive(n) => n <= |s.link.wire| && s.ok
  }

  function Do(cfg: Config, s: Net, a: Action): Net
    requires Placed(s) && Enabled(s, a)
  {
    var l, p := s.link, s.past;
    match a
    case Publish(i) => s.(log := s.log + [i])
    case Connect => s.(link := NEW_LINK, past := p.(queue := []))
    case Subscribe =>
      var b := Greeting(s.log, s.client.next);
      s.(link := l.(subscribed := true, cursor := b.next, backlog := EncodeAll(b.fs)),
         past := p.(queue := b.fs, start := Asked(s.log, s.client.next)))
    case Pump(due, ts) =>
      var b := Pumped(cfg, s.log, l.cursor, |l.backlog|, due, ts);
      s.(link := l.(cursor := b.next, backlog := l.backlog + EncodeAll(b.fs)), past := p.(queue := p.queue + b.fs))
    case Flush(n) => s.(link := l.(backlog := l.backlog[n..], wire := l.wire + l.backlog[..n]))
    case Receive(n) =>
      var buf := l.buf + l.wire[..n];
      var (d, k) := (Drain(s.client, buf), Whole(p.queue, |buf|));
      s.(client := d.c, ok := d.ok, link := l.(wire := l.wire[n..], buf := d.buf),
         past := p.(queue := p.queue[k..], base := BaseAfter(p.base, s.client, p.start, p.queue[..k]),
                    seen := p.seen + SeenAll(p.queue[..k])))
  }

  /** The bytes between the server's cursor and the client are the frames of a chain from what the client expects. */
  predicate Linked(cfg: Config, s: Net, forward: bool) {
    var l, p := s.link, s.past;
    if l.subscribed then
      && 1 <= l.cursor <= |s.log| + 1 && p.start >= 1
      && |l.backlog| < cfg.max + DATA_FRAME
      && l.buf + (l.wire + l.backlog) == EncodeAll(p.queue)
      && Chain(s.log, forward, Expected(s.client, p.start), p.queue, l.cursor)
    else l.buf == l.wire == l.backlog == [] && p.queue == []
  }

  predicate Inv(cfg: Config, s: Net, forward: bool) {
    && cfg.max > 0 && s.ok
    && Linked(cfg, s, forward)
    && Accounted(s.log, forward, s.past.base, s.client, s.past.seen)
    && (forward ==> s.client.next <= |s.log| + 1)
  }

  lemma PublishInv(cfg: Config, s: Net, forward: bool, i: Item)
    requires Inv(cfg, s, forward) && Enabled(s, Publish(i))
    ensures Inv(cfg, Do(cfg, s, Publish(i)), forward)
  {
    var more: Log := s.log + [i];
    if s.link.subscribed {
      ChainKept(s.log, forward, Expected(s.client, s.past.start), s.past.queue, s.link.cursor, more, forward);
    }
    if forward && s.client.next != 0 { TilesGrows(s.log, s.past.base, s.past.seen, s.client.next, more); }
  }

  lemma SubscribeInv(cfg: Config, s: Net, forward: bool)
    requires Inv(cfg, s, forward) && Enabled(s, Subscribe)
    ensures Inv(cfg, Do(cfg, s, Subscribe), forward)
  {
    var from := s.client.next;
    var b := Greeting(s.log, from);
    GreetingChain(s.log, from);
    ChainKept(s.log, from <= |s.log| + 1, Asked(s.log, from), b.fs, b.next, s.log, forward);
    if b.fs != [] { EncodeOne(b.fs[0]); }
    var l := Do(cfg, s, Subscribe).link;
    assert l.buf + (l.wire + l.backlog) == l.backlog;
  }

  lemma PumpExtends(cfg: Config, log: Log, forward: bool, at: nat, queue: seq<Frame>, cursor: nat, size: nat, due: bool, ts: U64)
    requires cfg.max > 0 && 1 <= cursor <= |log| + 1 && Chain(log, forward, at, queue, cursor) && size < cfg.max + DATA_FRAME
    ensures var b := Pumped(cfg, log, cursor, size, due, ts);
            && 1 <= b.next <= |log| + 1 && Chain(log, forward, at, queue + b.fs, b.next)
            && size + |EncodeAll(b.fs)| < cfg.max + DATA_FRAME
            && EncodeAll(queue + b.fs) == EncodeAll(queue) + EncodeAll(b.fs)
  {
    var b := Pumped(cfg, log, cursor, size, due, ts);
    PumpedChain(cfg, log, cursor, size, due, ts);
    ChainKept(log, true, cursor, b.fs, b.next, log, forward);
    ChainConcat(log, forward, at, queue, cursor, b.fs, b.next);
    EncodeAllConcat(queue, b.fs);
  }

  lemma Regroup(a: Bytes, b: Bytes, c: Bytes, d: Bytes)
    ensures a + (b + (c + d)) == a + (b + c) + d
  {
  }

  lemma PumpInv(cfg: Config, s: Net, forward: bool, due: bool, ts: U64)
    requires Inv(cfg, s, forward) && Enabled(s, Pump(due, ts))
    ensures Inv(cfg, Do(cfg, s, Pump(due, ts)), forward)
  {
    var l, p := s.link, s.past;
    var b := Pumped(cfg, s.log, l.cursor, |l.backlog|, due, ts);
    PumpExtends(cfg, s.log, forward, Expected(s.client, p.start), p.queue, l.cursor, |l.backlog|, due, ts);
    Regroup(l.buf, l.wire, l.backlog, EncodeAll(b.fs));
  }

  lemma FlushInv(cfg: Config, s: Net, forward: bool, n: nat)
    requires Inv(cfg, s, forward) && Enabled(s, Flush(n))
    ensures Inv(cfg, Do(cfg, s, Flush(n)), forward)
  {
    var l := s.link;
    assert l.wire + l.backlog == l.wire + l.backlog[..n] + l.backlog[n..];
  }

  lemma Arrive(a: Bytes, b: Bytes, c: Bytes, n: nat)
    requires n <= |b|
    ensures (a + b[..n]) + (b[n..] + c) == a + (b + c)
  {
    assert b == b[..n] + b[n..];
  }

  /** A client that gets a prefix of the bytes of a chain is left expecting what the rest of the chain starts with. */
  lemma TakesIn(log: Log, forward: bool, start: nat, base: nat, c: Client, seen: seq<Seen>, queue: seq<Frame>,
                cursor: nat, buf: Bytes, more: Bytes)
    requires start >= 1 && Accounted(log, forward, base, c, seen) && Chain(log, forward, Expected(c, start), queue, cursor)
    requires buf + more == EncodeAll(queue) && (forward ==> c.next <= |log| + 1)
    ensures var (k, d) := (Whole(queue, |buf|), Drain(c, buf));
            && d.ok && d.buf + more == EncodeAll(queue[k..])
            && Chain(log, forward, Expected(d.c, start), queue[k..], cursor)
            && Accounted(log, forward, BaseAfter(base, c, start, queue[..k]), d.c, seen + SeenAll(queue[..k]))
            && (c.next != 0 || k > 0 ==> d.c.next != 0) && (forward ==> d.c.next <= |log| + 1)
  {
    var k := Whole(queue, |buf|);
    DrainFrames(c, buf, more, queue);
    var mid := ChainSplit(log, forward, Expected(c, start), queue, k, cursor);
    HandleChain(log, forward, start, base, c, seen, queue[..k], mid);
    ChainEnds(log, forward, Expected(c, start), queue[..k], mid);
  }

  lemma ReceiveInv(cfg: Config, s: Net, forward: bool, n: nat)
    requires Inv(cfg, s, forward) && Enabled(s, Receive(n))
    ensures Inv(cfg, Do(cfg, s, Receive(n)), forward)
    ensures s.client.next != 0 ==> Do(cfg, s, Receive(n)).client.next != 0
  {
    var l, p := s.link, s.past;
    var buf, more := l.buf + l.wire[..n], l.wire[n..] + l.backlog;
    if l.subscribed {
      Arrive(l.buf, l.wire, l.backlog, n);
      TakesIn(s.log, forward, p.start, p.base, s.client, p.seen, p.queue, l.cursor, buf, more);
    } else {
      assert buf == [] && p.seen + SeenAll([]) == p.seen && l.wire[n..] == [];
    }
  }

  lemma StepInv(cfg: Config, s: Net, forward: bool, a: Action)
    requires Inv(cfg, s, forward) && Enabled(s, a)
    ensures Inv(cfg, Do(cfg, s, a), forward)
    ensures s.client.next != 0 ==> Do(cfg, s, a).client.next != 0 && Do(cfg, s, a).past.base == s.past.base
  {
    match a
    case Publish(i) => PublishInv(cfg, s, forward, i);
    case Connect =>
    case Subscribe => SubscribeInv(cfg, s, forward);
    case Pump(due, ts) => PumpInv(cfg, s, forward, due, ts);
    case Flush(n) => FlushInv(cfg, s, forward, n);
    case Receive(n) => ReceiveInv(cfg, s, forward, n);
  }

  /** Cursors stay within the stream whatever step is taken. */
  lemma PlacedKept(cfg: Config, s: Net, a: Action)
    requires Placed(s) && Enabled(s, a)
    ensures Placed(Do(cfg, s, a))
  {
    if a.Subscribe? { GreetingChain(s.log, s.client.next); }
    if a.Pump? { MovedChain(cfg, s.log, s.link.cursor, |s.link.backlog|); }
  }

  /** The actions can be taken one after the other from `s`. */
  ghost predicate CanRun(cfg: Config, s: Net, acts: seq<Action>)
    requires Placed(s)
    decreases |acts|
  {
    acts == [] ||
    (Enabled(s, acts[0]) && (PlacedKept(cfg, s, acts[0]); CanRun(cfg, Do(cfg, s, acts[0]), acts[1..])))
  }

  function Run(cfg: Config, s: Net, acts: seq<Action>): Net
    requires Placed(s) && CanRun(cfg, s, acts)
    decreases |acts|
  {
    if acts == [] then s
    else
      PlacedKept(cfg, s, acts[0]);
      Run(cfg, Do(cfg, s, acts[0]), acts[1..])
  }

  /** One more action at the end of a run. */
  lemma {:induction false} RunSnoc(cfg: Config, s: Net, acts: seq<Action>, a: Action)
    requires Placed(s) && CanRun(cfg, s, acts) && Enabled(Run(cfg, s, acts), a)
    ensures Placed(Run(cfg, s, acts)) && CanRun(cfg, s, acts + [a])
    ensures Run(cfg, s, acts + [a]) == Do(cfg, Run(cfg, s, acts), a)
    decreases |acts|
  {
    if acts == [] {
      PlacedKept(cfg, s, a);
      assert [] + [a] == [a] && [a][1..] == [];
      assert Run(cfg, Do(cfg, s, a), []) == Do(cfg, s, a);
    } else {
      PlacedKept(cfg, s, acts[0]);
      RunSnoc(cfg, Do(cfg, s, acts[0]), acts[1..], a);
      TailConcat(acts, [a]);
    }
  }

  lemma {:induction false} RunInv(cfg: Config, s: Net, forward: bool, acts: seq<Action>)
    requires Inv(cfg, s, forward) && CanRun(cfg, s, acts)
    ensures Inv(cfg, Run(cfg, s, acts), forward)
    decreases |acts|
  {
    if acts != [] {
      StepInv(cfg, s, forward, acts[0]);
      RunInv(cfg, Do(cfg, s, acts[0]), forward, acts[1..]);
    }
  }

  /** A client started with `from` (0 for live) against a server that has published `log`. */
  function Begin(log: Log, from: nat): Net {
    Net(log, Start(from), true, NEW_LINK, History([], 0, from, []))
  }

  lemma BeginInv(cfg: Config, log: Log, from: nat)
    requires cfg.max > 0
    ensures Inv(cfg, Begin(log, from), from <= |log| + 1)
  {
  }

  // ---------------------------------------------------------------- what holds in every run

  /** The account of the client's base is settled by its first frame. */
  lemma {:induction false} BaseKept(cfg: Config, s: Net, forward: bool, acts: seq<Action>)
    requires Inv(cfg, s, forward) && CanRun(cfg, s, acts) && s.client.next != 0
    ensures Run(cfg, s, acts).past.base == s.past.base && Run(cfg, s, acts).client.next != 0
    decreases |acts|
  {
    if acts != [] {
      StepInv(cfg, s, forward, acts[0]);
      BaseKept(cfg, Do(cfg, s, acts[0]), forward, acts[1..]);
    }
  }

  /** Sequence n is handled, or lies in a Gap, and that once. */
  ghost predicate Once(seen: seq<Seen>, n: nat) {
    exists k: nat | k < |seen| :: Covers(seen[k], n) && forall j: nat | j < |seen| && Covers(seen[j], n) :: j == k
  }

  /** Every sequence from the base up to `next_seq` was handled or reported lost, exactly once. */
  ghost predicate Complete(s: Net) {
    s.client.next != 0 ==>
      && Tiles(s.log, s.past.base, s.past.seen, s.client.next)
      && forall n: nat | s.past.base <= n < s.client.next :: Once(s.past.seen, n)
  }

  lemma TilesComplete(s: Net)
    requires s.client.next != 0 ==> Tiles(s.log, s.past.base, s.past.seen, s.client.next)
    ensures Complete(s)
  {
    if s.client.next != 0 {
      forall n: nat | s.past.base <= n < s.client.next ensures Once(s.past.seen, n) {
        var k := ExactlyOnce(s.log, s.past.base, s.past.seen, s.client.next, n);
      }
    }
  }

  /** In every run, whatever the client first asked for: the counters balance and no frame is unexpected. */
  lemma CountersBalance(cfg: Config, log: Log, from: nat, acts: seq<Action>)
    requires cfg.max > 0 && CanRun(cfg, Begin(log, from), acts)
    ensures var s := Run(cfg, Begin(log, from), acts);
            && s.ok && s.client.jumps == 0
            && s.client.frames == GotCount(s.past.seen) && s.client.lost == LostCount(s.past.seen)
            && s.client.gaps == |s.past.seen| - GotCount(s.past.seen)
            && (s.client.next != 0 ==> s.client.frames + s.client.lost == s.client.next - s.past.base)
            && (from != 0 ==> s.past.base == from)
            && |s.link.backlog| < cfg.max + DATA_FRAME
  {
    var s, forward := Begin(log, from), from <= |log| + 1;
    BeginInv(cfg, log, from);
    RunInv(cfg, s, forward, acts);
    if from != 0 { BaseKept(cfg, s, forward, acts); }
  }

  /** In every run of a client that asked for nothing beyond the head: every sequence exactly once. */
  lemma ResumeIsComplete(cfg: Config, log: Log, from: nat, acts: seq<Action>)
    requires cfg.max > 0 && from <= |log| + 1 && CanRun(cfg, Begin(log, from), acts)
    ensures Complete(Run(cfg, Begin(log, from), acts))
  {
    BeginInv(cfg, log, from);
    RunInv(cfg, Begin(log, from), true, acts);
    TilesComplete(Run(cfg, Begin(log, from), acts));
  }

  lemma StaleReceived(cfg: Config, s: Net, f: Frame)
    requires Placed(s) && Enabled(s, Receive(24)) && f.Gap? && s.past.queue == [f] && s.past.seen == []
    requires s.link.buf == [] && s.link.wire == Encode(f)
    ensures var s' := Do(cfg, s, Receive(24));
            s'.client == Handle(s.client, f) && s'.past.seen == [Lost(f.from, f.resumed)]
  {
    var buf := s.link.buf + s.link.wire[..24];
    assert buf == Encode(f);
    DrainOne(s.client, f);
    assert [f][..1] == [f] && [f][1..] == [];
    assert SeenAll([f]) == SeenOf(f) + [];
  }

  lemma StaleSent(cfg: Config, log: Log, from: U64)
    requires from > |log| + 1
    ensures var (s, f) := (Begin(log, from), Gap(from, |log| + 1));
            && Placed(s) && Enabled(s, Subscribe)
            && var s1 := Do(cfg, s, Subscribe);
            && Placed(s1) && Enabled(s1, Flush(24))
            && var l := Link(true, |log| + 1, [], Encode(f), []);
               Do(cfg, s1, Flush(24)) == Net(log, Start(from), true, l, History([f], from, from, []))
  {
    var f := Gap(from, |log| + 1);
    EncodeOne(f);
    var s1 := Do(cfg, Begin(log, from), Subscribe);
    assert s1.link == Link(true, |log| + 1, Encode(f), [], []);
    assert [] + Encode(f)[..24] == Encode(f) && Encode(f)[24..] == [];
  }

  /** A client ahead of the head is told of a Gap that runs backwards, and counts frames lost below zero. */
  lemma StaleResume(cfg: Config, log: Log, from: U64) returns (acts: seq<Action>)
    requires from > |log| + 1
    ensures CanRun(cfg, Begin(log, from), acts)
    ensures var s := Run(cfg, Begin(log, from), acts);
            s.client.lost == |log| + 1 - from < 0 && s.client.next == |log| + 1 && !Complete(s)
  {
    var s0 := Begin(log, from);
    StaleSent(cfg, log, from);
    var s1 := Do(cfg, s0, Subscribe);
    var s2 := Do(cfg, s1, Flush(24));
    StaleReceived(cfg, s2, Gap(from, |log| + 1));
    RunSnoc(cfg, s0, [], Subscribe);
    RunSnoc(cfg, s0, [] + [Subscribe], Flush(24));
    RunSnoc(cfg, s0, [] + [Subscribe] + [Flush(24)], Receive(24));
    return [] + [Subscribe] + [Flush(24)] + [Receive(24)];
  }

  /** Every run is complete, iff the client does not ask for frames beyond the head. */
  lemma CompleteIff(cfg: Config, log: Log, from: U64)
    requires cfg.max > 0
    ensures (forall acts | CanRun(cfg, Begin(log, from), acts) :: Complete(Run(cfg, Begin(log, from), acts)))
            <==> from <= |log| + 1
  {
    if from <= |log| + 1 {
      forall acts | CanRun(cfg, Begin(log, from), acts) ensures Complete(Run(cfg, Begin(log, from), acts)) {
        ResumeIsComplete(cfg, log, from, acts);
      }
    } else {
      var acts := StaleResume(cfg, log, from);
    }
  }

  /** A client that has received all there was to send expects the next frame to be published. */
  lemma CaughtUp(cfg: Config, s: Net, forward: bool)
    requires Inv(cfg, s, forward) && s.link.subscribed && s.client.next != 0
    requires s.link.buf == s.link.wire == s.link.backlog == [] && s.link.cursor == |s.log| + 1
    ensures s.client.next == |s.log| + 1
  {
    EncodeAllEmpty(s.past.queue);
  }
}
