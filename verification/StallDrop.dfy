/**
 A subscriber that takes bytes and is dropped for taking none: calls of the publisher, from a new one on.
 */
module StallDrop {
  import opened Types
  import opened Wire
  import opened Feed
  import opened Connection
  import opened Watching
  import opened Publishing
  import MdClient

  /** The first pump of a subscriber waiting for the only frame queues that frame. */
  lemma OneFrame(cfg: Config, log: Log, w: Watch, now: U64, interval: U64)
    requires cfg.cap > 0 && cfg.max > 0 && |log| == 1 && w.pending == 0
    ensures |EncodeAll(PumpedAt(cfg, log, 1, w, now, interval).fs)| == DATA_FRAME
  {
    var f := Data(1, log[0]);
    assert Copied(cfg, log, 2, DATA_FRAME) == [];
    assert Copied(cfg, log, 1, 0) == [f] + [];
    assert Moved(cfg, log, 1, 0).fs == [] + ([f] + []);
    assert [] + ([f] + []) == [f];
    EncodeOne(f);
  }

  /** A socket that takes nothing, and one that takes one byte. */
  lemma Answers(n: nat)
    ensures Taken(n, [WouldBlock]) == (0, true)
    ensures n > 0 ==> Taken(n, [Wrote(1), WouldBlock]) == (1, true)
  {
    assert [Wrote(1), WouldBlock][1..] == [WouldBlock];
  }

  /** A publisher that has published one frame. */
  method Open(log2: nat, max: nat, heartbeat: U64, timeout: U64, i: Item) returns (p: Publisher)
    ensures fresh(p) && fresh(p.ring) && fresh(p.ring.buf)
    ensures p.Valid() && p.timeout == timeout && p.cfg.max == max && p.cfg.cap > 0 && |p.ring.log| == 1
  {
    p := new Publisher(log2, max, heartbeat, timeout);
    p.Publish(i);
  }

  /** The Subscribe frame of a client asking for the first frame. */
  method AskForFirst() returns (sent: Bytes)
    ensures |sent| == SizeFor(SUBSCRIBE) && IsSubscribe(ReadHeader(sent)) && U64At(sent, 8) == 1
  {
    var client := new MdClient.Stream(1);
    sent := client.Connect();
  }

  /** A subscriber waiting for the only frame. */
  method Join(p: Publisher) returns (s: Subscriber)
    requires p.Valid() && |p.ring.log| == 1
    ensures fresh(s) && fresh(s.conn) && p.Serves(s) && s.Watched()
    ensures s.subscribed && s.nextSeq == 1 && s.conn.Backlog() == [] && s.stalledSince == 0
  {
    s := new Subscriber();
    var sent := AskForFirst();
    assert s.rx + sent == sent;
    var keep := p.OnReadable(s, sent);
    assert EncodeAll(Greeting(p.ring.log, 1).fs) == [];
  }

  /** A pump that finds the socket full. */
  method FullAtFirst(p: Publisher, s: Subscriber) returns (ok: bool)
    requires p.Serves(s) && s.Watched() && p.cfg.max > 0 && p.cfg.cap > 0 && |p.ring.log| == 1 && p.timeout > 0
    requires s.subscribed && s.nextSeq == 1 && s.conn.Backlog() == [] && s.stalledSince == 0
    modifies s, s.conn
    ensures ok && p.Serves(s) && s.Watched() && s.stalledSince == 1 && |s.conn.Backlog()| == DATA_FRAME
  {
    OneFrame(p.cfg, p.ring.log, s.AsWatch(), 1, p.heartbeat);
    Answers(DATA_FRAME);
    ok := p.Pump(s, 1, [WouldBlock]);
  }

  /** A pump that finds it full at the timeout. */
  method FullAgain(p: Publisher, s: Subscriber) returns (ok: bool)
    requires p.Serves(s) && s.Watched() && s.stalledSince == 1 && s.conn.Backlog() != [] && p.timeout < TWO64 - 1
    modifies s, s.conn
    ensures !ok
  {
    Answers(|s.conn.Backlog() + EncodeAll(p.Batched(s, 1 + p.timeout).fs)|);
    ok := p.Pump(s, 1 + p.timeout, [WouldBlock]);
  }

  /**
   A pump finds the socket full; the socket takes a byte; a pump at the timeout finds it full again, and drops a
   subscriber that has taken a byte since.
   */
  method DroppedWhileTaking(log2: nat, max: nat, heartbeat: U64, timeout: U64, i: Item)
    returns (first: bool, second: bool, took: nat, kept: bool)
    requires max > 0 && 0 < timeout < TWO64 - 1
    ensures first && second && took == 1 && !kept
  {
    var p := Open(log2, max, heartbeat, timeout, i);
    var s := Join(p);
    first := FullAtFirst(p, s);
    var before := |s.conn.Backlog()|;
    Answers(before);
    second := p.OnWritable(s, [Wrote(1), WouldBlock]);
    took := before - |s.conn.Backlog()|;
    kept := FullAgain(p, s);
  }
}
