/**
 What a client is told it lost is lost: over any run of the resume protocol, no Gap names a frame the ring still
 retains, and every retained frame the client has passed was handed to it.
 */
module ResumeLoss {
  import opened Types
  import opened Wire
  import opened Feed
  import opened MdClient
  import opened Resume

  /** The Gaps under way name only frames that are gone. */
  ghost predicate GoneIn(fs: seq<Frame>, oldest: nat) {
    forall f | f in fs && f.Gap? :: f.resumed <= oldest
  }

  /** What was reported lost is gone. */
  ghost predicate GoneOf(seen: seq<Seen>, oldest: nat) {
    forall x | x in seen && x.Lost? :: x.to <= oldest
  }

  ghost predicate LossOk(cfg: Config, s: Net) {
    GoneIn(s.past.queue, Oldest(cfg.cap, |s.log|)) && GoneOf(s.past.seen, Oldest(cfg.cap, |s.log|))
  }

  lemma {:induction false} GoneSeen(fs: seq<Frame>, oldest: nat)
    requires GoneIn(fs, oldest)
    ensures GoneOf(SeenAll(fs), oldest)
  {
    if fs != [] { GoneSeen(fs[1..], oldest); }
  }

  lemma PumpedGone(cfg: Config, log: Log, next: nat, size: nat, due: bool, ts: U64)
    requires 1 <= next <= |log| + 1
    ensures GoneIn(Pumped(cfg, log, next, size, due, ts).fs, Oldest(cfg.cap, |log|))
  {
    GapsAreExact(cfg, log, next, size, due, ts);
    forall f | f in Pumped(cfg, log, next, size, due, ts).fs && f.Gap? ensures f.resumed <= Oldest(cfg.cap, |log|) {
      var n := Oldest(cfg.cap, |log|);
      OldestIs(cfg.cap, |log|, n);
    }
  }

  lemma ReceiveGone(cfg: Config, s: Net, n: nat)
    requires Placed(s) && Enabled(s, Receive(n)) && LossOk(cfg, s)
    ensures LossOk(cfg, Do(cfg, s, Receive(n)))
  {
    var q := s.past.queue;
    var k := Whole(q, |s.link.buf + s.link.wire[..n]|);
    GoneSeen(q[..k], Oldest(cfg.cap, |s.log|));
  }

  lemma StepGone(cfg: Config, s: Net, a: Action)
    requires Inv(cfg, s, true) && Enabled(s, a) && LossOk(cfg, s)
    ensures LossOk(cfg, Do(cfg, s, a))
  {
    match a
    case Publish(i) => assert Oldest(cfg.cap, |s.log|) <= Oldest(cfg.cap, |s.log| + 1);
    case Connect =>
    case Subscribe =>
    case Pump(due, ts) => PumpedGone(cfg, s.log, s.link.cursor, |s.link.backlog|, due, ts);
    case Flush(n) =>
    case Receive(n) => ReceiveGone(cfg, s, n);
  }

  lemma {:induction false} RunGone(cfg: Config, s: Net, acts: seq<Action>)
    requires Inv(cfg, s, true) && CanRun(cfg, s, acts) && LossOk(cfg, s)
    ensures LossOk(cfg, Run(cfg, s, acts))
    decreases |acts|
  {
    if acts != [] {
      StepInv(cfg, s, true, acts[0]);
      StepGone(cfg, s, acts[0]);
      RunGone(cfg, Do(cfg, s, acts[0]), acts[1..]);
    }
  }

  /** In every run of a client that asked for nothing beyond the head, no frame still retained was reported lost. */
  lemma OnlyGoneIsLost(cfg: Config, log: Log, from: nat, acts: seq<Action>)
    requires cfg.max > 0 && from <= |log| + 1 && CanRun(cfg, Begin(log, from), acts)
    ensures var s := Run(cfg, Begin(log, from), acts);
            forall x, n: nat | x in s.past.seen && x.Lost? && Covers(x, n) :: !Recent(cfg.cap, |s.log|, n)
  {
    BeginInv(cfg, log, from);
    RunGone(cfg, Begin(log, from), acts);
    var s := Run(cfg, Begin(log, from), acts);
    forall x, n: nat | x in s.past.seen && x.Lost? && Covers(x, n) ensures !Recent(cfg.cap, |s.log|, n) {
      OldestIs(cfg.cap, |s.log|, n);
    }
  }

  /** So every frame still retained, between the client's base and the sequence it expects, was handed to it. */
  lemma RetainedIsReceived(cfg: Config, log: Log, from: nat, acts: seq<Action>, n: nat)
    requires cfg.max > 0 && from <= |log| + 1 && CanRun(cfg, Begin(log, from), acts)
    ensures var s := Run(cfg, Begin(log, from), acts);
            s.client.next != 0 && s.past.base <= n < s.client.next && Recent(cfg.cap, |s.log|, n) ==>
              Got(n, s.log[n - 1]) in s.past.seen
  {
    BeginInv(cfg, log, from);
    RunInv(cfg, Begin(log, from), true, acts);
    OnlyGoneIsLost(cfg, log, from, acts);
    var s := Run(cfg, Begin(log, from), acts);
    if s.client.next != 0 && s.past.base <= n < s.client.next && Recent(cfg.cap, |s.log|, n) {
      var k := ExactlyOnce(s.log, s.past.base, s.past.seen, s.client.next, n);
      assert s.past.seen[k] in s.past.seen;
    }
  }
}
