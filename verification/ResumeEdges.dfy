/**
 Runs of the resume protocol at its edges: one that fills the backlog to the last byte of its bound,
 and one in which a limit of zero lets a heartbeat carry the client past a frame it never got.
 */
module ResumeEdges {
  import opened Types
  import opened Wire
  import opened Feed
  import opened MdClient
  import opened Resume

  // ---------------------------------------------------------------- the backlog at its bound

  /** A subscriber at the head of a stream of `k` frames, with `size` bytes queued. */
  predicate AtHead(s: Net, k: nat, size: nat) {
    s.link.subscribed && |s.log| == k && s.link.cursor == k + 1 && |s.link.backlog| == size
  }

  /** The frame published last, and no other, is queued for a cursor that waits for it. */
  lemma LastCopied(cfg: Config, log: Log, size: nat)
    requires cfg.cap > 0 && log != [] && size < cfg.max
    ensures var b := Pumped(cfg, log, |log|, size, false, 0); b.next == |log| + 1 && |EncodeAll(b.fs)| == DATA_FRAME
  {
    var f := Data(|log|, log[|log| - 1]);
    assert Copied(cfg, log, |log| + 1, size + DATA_FRAME) == [];
    assert Copied(cfg, log, |log|, size) == [f] + [];
    assert Moved(cfg, log, |log|, size) == Batch([] + ([f] + []), |log| + 1);
    assert [] + ([f] + []) == [f];
    EncodeOne(f);
  }

  /** Publishing a frame and pumping queues one frame more. */
  lemma Round(cfg: Config, s: Net, acts: seq<Action>, i: Item, k: nat, size: nat) returns (more: seq<Action>)
    requires cfg.cap > 0 && Placed(s) && CanRun(cfg, s, acts) && AtHead(Run(cfg, s, acts), k, size)
    requires size < cfg.max && k + 1 < TWO32 - 1
    ensures CanRun(cfg, s, more) && AtHead(Run(cfg, s, more), k + 1, size + DATA_FRAME)
  {
    var a := Run(cfg, s, acts);
    RunSnoc(cfg, s, acts, Publish(i));
    var b := Do(cfg, a, Publish(i));
    RunSnoc(cfg, s, acts + [Publish(i)], Pump(false, 0));
    LastCopied(cfg, b.log, size);
    return acts + [Publish(i)] + [Pump(false, 0)];
  }

  lemma {:induction false} Fill(cfg: Config, i: Item, k: nat) returns (acts: seq<Action>)
    requires cfg.cap > 0 && DATA_FRAME * (k - 1) < cfg.max && k < TWO32 - 1
    ensures CanRun(cfg, Begin([], 0), acts) && AtHead(Run(cfg, Begin([], 0), acts), k, DATA_FRAME * k)
    decreases k
  {
    if k == 0 {
      RunSnoc(cfg, Begin([], 0), [], Subscribe);
      acts := [] + [Subscribe];
    } else {
      acts := Fill(cfg, i, k - 1);
      acts := Round(cfg, Begin([], 0), acts, i, k - 1, DATA_FRAME * (k - 1));
    }
  }

  /**
   A run that queues the limit plus a frame less one byte, for every limit that a stream of fewer than
   2^32 - 1 frames can fill. The bound on the backlog is tight, and the limit itself is exceeded.
   */
  lemma BacklogReachesBound(cfg: Config, i: Item) returns (acts: seq<Action>)
    requires cfg.cap > 0 && 0 < cfg.max <= DATA_FRAME * (TWO32 - 3)
    ensures CanRun(cfg, Begin([], 0), acts)
    ensures |Run(cfg, Begin([], 0), acts).link.backlog| == cfg.max + DATA_FRAME - 1
  {
    var k := (cfg.max + DATA_FRAME - 2) / DATA_FRAME;
    acts := Fill(cfg, i, k);
    var n := DATA_FRAME * k - (cfg.max - 1);
    RunSnoc(cfg, Begin([], 0), acts, Flush(n));
    acts := Round(cfg, Begin([], 0), acts + [Flush(n)], i, k, cfg.max - 1);
  }

  // ---------------------------------------------------------------- a limit of zero

  /** With no room at all, a heartbeat is all a pump can queue. */
  lemma OnlyBeats(cfg: Config, log: Log, next: nat)
    requires cfg.max == 0 && 1 <= next <= |log| + 1
    ensures Pumped(cfg, log, next, 0, true, 0) == Batch([Heartbeat(0, |log|)], next)
  {
    assert Moved(cfg, log, next, 0) == Batch([] + [], next);
    assert [] + [Heartbeat(0, |log|)] == [Heartbeat(0, |log|)];
  }

  /** The subscriber behind a frame just published, with a heartbeat queued for it. */
  function Beaten(log: Log, from: U64, i: Item, backlog: Bytes, wire: Bytes): Net
    requires |log| + 1 < TWO32 - 1
  {
    var start := Asked(log, from);
    Net(log + [i], Start(from), true, Link(true, start, backlog, wire, []),
        History([Heartbeat(0, |log| + 1)], start, from, []))
  }

  function Waiting(log: Log, from: U64, i: Item): Net
    requires |log| + 1 < TWO32 - 1
  {
    var start := Asked(log, from);
    Net(log + [i], Start(from), true, Link(true, start, [], [], []), History([], start, from, []))
  }

  lemma ZeroWaits(cfg: Config, log: Log, from: U64, i: Item)
    requires from <= |log| + 1 < TWO32 - 1
    ensures var (s, acts) := (Begin(log, from), [] + [Subscribe] + [Publish(i)]);
            CanRun(cfg, s, acts) && Run(cfg, s, acts) == Waiting(log, from, i)
  {
    var s := Begin(log, from);
    RunSnoc(cfg, s, [], Subscribe);
    RunSnoc(cfg, s, [] + [Subscribe], Publish(i));
  }

  lemma ZeroBeats(cfg: Config, log: Log, from: U64, i: Item)
    requires cfg.max == 0 && from <= |log| + 1 < TWO32 - 1
    ensures Do(cfg, Waiting(log, from, i), Pump(true, 0)) == Beaten(log, from, i, Encode(Heartbeat(0, |log| + 1)), [])
  {
    var f := Heartbeat(0, |log| + 1);
    OnlyBeats(cfg, log + [i], Asked(log, from));
    EncodeOne(f);
    assert [] + Encode(f) == Encode(f) && [] + [f] == [f];
  }

  lemma ZeroQueued(cfg: Config, log: Log, from: U64, i: Item)
    requires cfg.max == 0 && from <= |log| + 1 < TWO32 - 1
    ensures var (s, acts) := (Begin(log, from), [] + [Subscribe] + [Publish(i)] + [Pump(true, 0)]);
            CanRun(cfg, s, acts) && Run(cfg, s, acts) == Beaten(log, from, i, Encode(Heartbeat(0, |log| + 1)), [])
  {
    ZeroWaits(cfg, log, from, i);
    ZeroBeats(cfg, log, from, i);
    RunSnoc(cfg, Begin(log, from), [] + [Subscribe] + [Publish(i)], Pump(true, 0));
  }

  lemma ZeroSent(cfg: Config, log: Log, from: U64, i: Item)
    requires cfg.max == 0 && from <= |log| + 1 < TWO32 - 1
    ensures var (s, acts) := (Begin(log, from), [] + [Subscribe] + [Publish(i)] + [Pump(true, 0)] + [Flush(24)]);
            CanRun(cfg, s, acts) && Run(cfg, s, acts) == Beaten(log, from, i, [], Encode(Heartbeat(0, |log| + 1)))
  {
    var f := Heartbeat(0, |log| + 1);
    ZeroQueued(cfg, log, from, i);
    RunSnoc(cfg, Begin(log, from), [] + [Subscribe] + [Publish(i)] + [Pump(true, 0)], Flush(24));
    assert [] + Encode(f)[..24] == Encode(f) && Encode(f)[24..] == [];
  }

  lemma BeatReceived(cfg: Config, s: Net, f: Frame)
    requires Placed(s) && Enabled(s, Receive(24)) && f.Heartbeat? && s.past.queue == [f] && s.past.seen == []
    requires s.link.buf == [] && s.link.wire == Encode(f)
    ensures var s' := Do(cfg, s, Receive(24));
            && s'.client == Handle(s.client, f) && s'.past.seen == []
            && s'.past.base == BaseAfter(s.past.base, s.client, s.past.start, [f])
  {
    assert s.link.buf + s.link.wire[..24] == Encode(f);
    DrainOne(s.client, f);
    assert [f][..1] == [f] && [f][1..] == [];
    assert SeenAll([f]) == SeenOf(f) + [] == [];
  }

  /** With a limit of zero, a client is carried past a frame that it neither got nor was told it lost. */
  lemma ZeroLimitSkips(cfg: Config, log: Log, from: U64, i: Item) returns (acts: seq<Action>)
    requires cfg.max == 0 && from <= |log| + 1 < TWO32 - 1
    ensures CanRun(cfg, Begin(log, from), acts)
    ensures var s := Run(cfg, Begin(log, from), acts);
            s.client.next == |log| + 2 && s.past.seen == [] && !Complete(s)
  {
    var f := Heartbeat(0, |log| + 1);
    ZeroSent(cfg, log, from, i);
    acts := [] + [Subscribe] + [Publish(i)] + [Pump(true, 0)] + [Flush(24)];
    var s := Run(cfg, Begin(log, from), acts);
    BeatReceived(cfg, s, f);
    RunSnoc(cfg, Begin(log, from), acts, Receive(24));
    acts := acts + [Receive(24)];
  }

  /** While the server can publish: every run is complete iff the limit is positive and nothing beyond the head is asked for. */
  lemma CompleteIffLimited(cfg: Config, log: Log, from: U64)
    requires |log| + 1 < TWO32 - 1
    ensures (forall acts | CanRun(cfg, Begin(log, from), acts) :: Complete(Run(cfg, Begin(log, from), acts)))
            <==> cfg.max > 0 && from <= |log| + 1
  {
    if from > |log| + 1 {
      var acts := StaleResume(cfg, log, from);
    } else if cfg.max == 0 {
      var acts := ZeroLimitSkips(cfg, log, from, Body(TRADE, seq(DATA_FRAME - HEADER, _ => 0)));
    } else {
      CompleteIff(cfg, log, from);
    }
  }
}
