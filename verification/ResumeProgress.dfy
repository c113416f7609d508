/**
 Progress of the resume protocol: whatever state a run has reached, the client can be brought up to the head
 without anything more being published.
 */
module ResumeProgress {
  import opened Types
  import opened Wire
  import opened Feed
  import opened MdClient
  import opened Resume

  /** Nothing is published. */
  predicate Quiet(acts: seq<Action>) {
    forall a | a in acts :: !a.Publish?
  }

  /** Everything sent has arrived and been handled. */
  predicate Drained(s: Net) {
    s.link.subscribed && s.link.buf == s.link.wire == s.link.backlog == [] && s.past.queue == []
  }

  /** What one more quiet action after `acts` does. */
  lemma Then(cfg: Config, s: Net, acts: seq<Action>, forward: bool, a: Action)
    requires Placed(s) && CanRun(cfg, s, acts) && Quiet(acts) && !a.Publish?
    requires Inv(cfg, Run(cfg, s, acts), forward) && Enabled(Run(cfg, s, acts), a)
    ensures CanRun(cfg, s, acts + [a]) && Quiet(acts + [a])
    ensures Placed(Run(cfg, s, acts)) && Run(cfg, s, acts + [a]) == Do(cfg, Run(cfg, s, acts), a)
    ensures Inv(cfg, Run(cfg, s, acts + [a]), forward) && Run(cfg, s, acts + [a]).log == Run(cfg, s, acts).log
  {
    RunSnoc(cfg, s, acts, a);
    StepInv(cfg, Run(cfg, s, acts), forward, a);
  }

  lemma {:induction false} WholeAll(fs: seq<Frame>)
    ensures Whole(fs, |EncodeAll(fs)|) == |fs|
  {
    if fs != [] { WholeAll(fs[1..]); }
  }

  /** Receiving all there is leaves nothing unhandled. */
  lemma ReceiveAll(cfg: Config, s: Net, forward: bool)
    requires Inv(cfg, s, forward) && s.link.subscribed && s.link.backlog == []
    ensures Enabled(s, Receive(|s.link.wire|))
    ensures var r := Do(cfg, s, Receive(|s.link.wire|));
            && Drained(r) && r.link.cursor == s.link.cursor
            && (s.past.queue != [] || s.client.next != 0 ==> r.client.next != 0)
  {
    var l, p := s.link, s.past;
    var n := |l.wire|;
    ReceiveInv(cfg, s, forward, n);
    assert l.wire[..n] == l.wire && l.wire + [] == l.wire && l.wire[n..] == [];
    WholeAll(p.queue);
    assert p.queue[|p.queue|..] == [] && p.queue[..|p.queue|] == p.queue;
    TakesIn(s.log, forward, p.start, p.base, s.client, p.seen, p.queue, l.cursor, l.buf + l.wire, []);
    assert Do(cfg, s, Receive(n)).link.buf + [] == [];
  }

  /** Flushing and receiving until nothing is under way. */
  lemma DrainAll(cfg: Config, s: Net, acts: seq<Action>, forward: bool) returns (more: seq<Action>)
    requires Placed(s) && CanRun(cfg, s, acts) && Quiet(acts) && Inv(cfg, Run(cfg, s, acts), forward)
    requires Run(cfg, s, acts).link.subscribed
    ensures CanRun(cfg, s, more) && Quiet(more)
    ensures var (m, r) := (Run(cfg, s, acts), Run(cfg, s, more));
            && Inv(cfg, r, forward) && Drained(r) && r.log == m.log && r.link.cursor == m.link.cursor
            && (m.past.queue != [] || m.client.next != 0 ==> r.client.next != 0)
  {
    var m := Run(cfg, s, acts);
    var flush := Flush(|m.link.backlog|);
    Then(cfg, s, acts, forward, flush);
    more := acts + [flush];
    var f := Run(cfg, s, more);
    assert f.link.backlog == [];
    ReceiveAll(cfg, f, forward);
    Then(cfg, s, more, forward, Receive(|f.link.wire|));
    more := more + [Receive(|f.link.wire|)];
  }

  /** A pump moves a cursor behind the head on, if nothing is queued for it. */
  lemma PumpMoves(cfg: Config, log: Log, next: nat)
    requires cfg.max > 0 && 1 <= next <= |log|
    ensures Pumped(cfg, log, next, 0, false, 0).next > next
  {
    var r := Resumed(cfg, log, next, 0);
    if Skipped(cfg, log, next, 0) == [] {
      assert Copied(cfg, log, next, 0) != [];
    }
  }

  /** Pumping and draining until the cursor is at the head. */
  lemma {:induction false} CatchUp(cfg: Config, s: Net, acts: seq<Action>, forward: bool) returns (more: seq<Action>)
    requires Placed(s) && CanRun(cfg, s, acts) && Quiet(acts) && Inv(cfg, Run(cfg, s, acts), forward)
    requires Drained(Run(cfg, s, acts))
    ensures CanRun(cfg, s, more) && Quiet(more)
    ensures var (m, r) := (Run(cfg, s, acts), Run(cfg, s, more));
            Inv(cfg, r, forward) && Drained(r) && r.log == m.log && r.link.cursor == |r.log| + 1
    decreases |Run(cfg, s, acts).log| + 1 - Run(cfg, s, acts).link.cursor
  {
    var m := Run(cfg, s, acts);
    more := acts;
    if m.link.cursor <= |m.log| {
      PumpMoves(cfg, m.log, m.link.cursor);
      Then(cfg, s, acts, forward, Pump(false, 0));
      more := DrainAll(cfg, s, acts + [Pump(false, 0)], forward);
      more := CatchUp(cfg, s, more, forward);
    }
  }

  /** A pump of a cursor at the head with nothing queued beats, if a heartbeat is due. */
  lemma BeatsAtHead(cfg: Config, log: Log)
    requires cfg.max > 0
    ensures Pumped(cfg, log, |log| + 1, 0, true, 0).fs != []
  {
    assert Skipped(cfg, log, |log| + 1, 0) == [] && Copied(cfg, log, |log| + 1, 0) == [];
    assert Moved(cfg, log, |log| + 1, 0).fs == [];
  }

  /** A new connection, subscribed and drained. */
  lemma Rejoins(cfg: Config, s: Net, forward: bool) returns (acts: seq<Action>)
    requires Inv(cfg, s, forward) && s.client.next < TWO64
    ensures Placed(s) && CanRun(cfg, s, acts) && Quiet(acts)
    ensures var r := Run(cfg, s, acts); Inv(cfg, r, forward) && Drained(r) && r.log == s.log
  {
    Then(cfg, s, [], forward, Connect);
    Then(cfg, s, [] + [Connect], forward, Subscribe);
    acts := DrainAll(cfg, s, [] + [Connect] + [Subscribe], forward);
  }

  /** A heartbeat is queued for a cursor at the head. */
  lemma Beats(cfg: Config, s: Net, acts: seq<Action>, forward: bool)
    requires Placed(s) && CanRun(cfg, s, acts) && Quiet(acts) && Inv(cfg, Run(cfg, s, acts), forward)
    requires var m := Run(cfg, s, acts); Drained(m) && m.link.cursor == |m.log| + 1
    ensures CanRun(cfg, s, acts + [Pump(true, 0)]) && Quiet(acts + [Pump(true, 0)])
    ensures var (m, r) := (Run(cfg, s, acts), Run(cfg, s, acts + [Pump(true, 0)]));
            && Inv(cfg, r, forward) && r.link.subscribed && r.log == m.log
            && r.link.cursor == |r.log| + 1 && r.past.queue != []
  {
    var m := Run(cfg, s, acts);
    BeatsAtHead(cfg, m.log);
    Then(cfg, s, acts, forward, Pump(true, 0));
  }

  /**
   From every state of every run, some run in which nothing is published ends with the client expecting the next
   frame to be published: it reconnects, resumes, drains, and hears a heartbeat.
   */
  lemma CatchesUp(cfg: Config, s: Net, forward: bool) returns (acts: seq<Action>)
    requires Inv(cfg, s, forward) && s.client.next < TWO64
    ensures Placed(s) && CanRun(cfg, s, acts) && Quiet(acts)
    ensures Run(cfg, s, acts).log == s.log && Run(cfg, s, acts).client.next == |s.log| + 1
  {
    acts := Rejoins(cfg, s, forward);
    acts := CatchUp(cfg, s, acts, forward);
    Beats(cfg, s, acts, forward);
    acts := DrainAll(cfg, s, acts + [Pump(true, 0)], forward);
    CaughtUp(cfg, Run(cfg, s, acts), forward);
  }
}
