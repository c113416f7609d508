/**
 The publisher: subscribers with cursors into one replay ring. Its methods queue exactly the frames the
 feed's specification says, and read only slots the ring still holds.
 */
module Publishing {
  import opened Types
  import opened Wire
  import opened Feed
  import opened Connection
  import opened Replay
  import opened Watching
  import Modular

  class Subscriber {
    const conn: Conn
    var rx: Bytes
    var subscribed: bool
    var nextSeq: U32
    var lastTx: U64
    var stalledSince: U64

    ghost var record: Record  // what was done with it

    constructor ()
      ensures fresh(conn) && conn.Valid() && conn.queued == [] && conn.Backlog() == []
      ensures rx == [] && !subscribed && record.all == [] && Watched()
    {
      conn := new Conn();
      rx, subscribed, nextSeq, lastTx, stalledSince := [], false, 0, 0, 0;
      record := Visits([], NEW_WATCH);
    }

    ghost function AsWatch(): Watch
      requires conn.txOff <= |conn.tx|
      reads this, conn
    {
      Watch(|conn.Backlog()|, stalledSince, lastTx)
    }

    /** The clocks stand where the visits so far put them. */
    ghost predicate Watched()
      reads this, conn
    {
      conn.txOff <= |conn.tx| && AsWatch() == record.watch
    }

    /** Queues a control frame. */
    method Control(f: Frame, now: U64)
      requires conn.Valid() && !f.Data?
      modifies conn, this`lastTx
      ensures conn.Valid() && conn.queued == old(conn.queued) + Encode(f) && conn.Backlog() == old(conn.Backlog()) + Encode(f)
      ensures lastTx == now && conn.accepted == old(conn.accepted)
    {
      conn.Append(Encode(f));
      lastTx := now;
    }
  }

  class Publisher {
    const cfg: Config
    const heartbeat: U64  // interval, in the unit of the clock
    const timeout: U64
    const ring: ReplayRing

    constructor (log2: nat, max: nat, heartbeat: U64, timeout: U64)
      ensures fresh(ring) && fresh(ring.buf) && Valid() && cfg == Config(Modular.Pow2(log2), max) && ring.log == []
      ensures this.heartbeat == heartbeat && this.timeout == timeout
    {
      cfg := Config(Modular.Pow2(log2), max);
      this.heartbeat, this.timeout := heartbeat, timeout;
      ring := new ReplayRing(log2);
    }

    ghost predicate Valid()
      reads this, ring, ring.buf
    {
      ring.Valid() && ring.cap == cfg.cap
    }

    /** A subscriber's cursor lies within the stream. */
    ghost predicate Serves(s: Subscriber)
      reads this, ring, ring.buf, s, s.conn
    {
      Valid() && s.conn.Valid() && (s.subscribed ==> 1 <= s.nextSeq <= |ring.log| + 1)
    }

    method Publish(i: Item)
      requires Valid() && |ring.log| + 1 < TWO32 - 1
      modifies ring, ring.buf
      ensures Valid() && ring.log == old(ring.log) + [i]
    {
      var n := ring.Append(i);
    }

    /** Tells a lapped subscriber what it missed, if its cursor can move. */
    method Skip(s: Subscriber, now: U64)
      requires Serves(s) && s.subscribed
      modifies s`nextSeq, s`lastTx, s.conn
      ensures Serves(s)
      ensures var gap := Skipped(cfg, ring.log, old(s.nextSeq), |old(s.conn.Backlog())|);
              && s.nextSeq == Resumed(cfg, ring.log, old(s.nextSeq), |old(s.conn.Backlog())|).next
              && s.conn.Backlog() == old(s.conn.Backlog()) + EncodeAll(gap)
              && s.lastTx == (if gap == [] then old(s.lastTx) else now)
      ensures s.conn.accepted == old(s.conn.accepted)
      ensures |s.conn.Backlog()| < cfg.max ==> s.nextSeq >= Oldest(cfg.cap, |ring.log|)
    {
      if |s.conn.Backlog()| < cfg.max && s.nextSeq < ring.OldestHeld() {
        var g := Gap(s.nextSeq, ring.OldestHeld());
        EncodeOne(g);
        s.Control(g, now);
        s.nextSeq := ring.OldestHeld();
      } else {
        assert s.conn.Backlog() + [] == s.conn.Backlog();
      }
    }

    /** Copies frames from the ring while there are any and the backlog is below its limit. */
    method Copy(s: Subscriber, now: U64)
      requires Serves(s) && s.subscribed
      requires |s.conn.Backlog()| < cfg.max ==> s.nextSeq >= Oldest(cfg.cap, |ring.log|)
      modifies s`nextSeq, s`lastTx, s.conn
      ensures Serves(s)
      ensures var data := Copied(cfg, ring.log, old(s.nextSeq), |old(s.conn.Backlog())|);
              && s.nextSeq == old(s.nextSeq) + |data|
              && s.conn.Backlog() == old(s.conn.Backlog()) + EncodeAll(data)
              && s.lastTx == (if data == [] then old(s.lastTx) else now)
      ensures s.conn.accepted == old(s.conn.accepted)
    {
      ghost var from, was := s.nextSeq, s.conn.Backlog();
      CopyStarts(cfg, ring.log, from, was);
      while s.nextSeq <= ring.head && |s.conn.Backlog()| < cfg.max
        invariant Serves(s) && s.subscribed && s.conn.accepted == old(s.conn.accepted)
        invariant |s.conn.Backlog()| < cfg.max ==> s.nextSeq >= Oldest(cfg.cap, |ring.log|)
        invariant Copying(cfg, ring.log, from, was, s.nextSeq, s.conn.Backlog())
        invariant s.lastTx == if s.nextSeq == from then old(s.lastTx) else now
        decreases ring.head + 1 - s.nextSeq
      {
        CopyStep(cfg, ring.log, from, was, s.nextSeq, s.conn.Backlog());
        CopyOne(s, now);
      }
      CopyEnds(cfg, ring.log, from, was, s.nextSeq, s.conn.Backlog());
    }

    method CopyOne(s: Subscriber, now: U64)
      requires Serves(s) && s.subscribed && Oldest(cfg.cap, |ring.log|) <= s.nextSeq <= |ring.log|
      modifies s`nextSeq, s`lastTx, s.conn
      ensures Serves(s) && s.nextSeq == old(s.nextSeq) + 1 && s.lastTx == now && s.conn.accepted == old(s.conn.accepted)
      ensures s.conn.Backlog() == old(s.conn.Backlog()) + FrameOf(ring.log, old(s.nextSeq))
    {
      var f := ring.Frame(s.nextSeq);
      s.conn.Append(f);
      s.nextSeq := s.nextSeq + 1;
      s.lastTx := now;
    }

    method Beat(s: Subscriber, now: U64)
      requires Serves(s)
      modifies s`lastTx, s.conn
      ensures Serves(s)
      ensures s.conn.Backlog() == old(s.conn.Backlog())
                                  + (if Modular.Minus(now, old(s.lastTx)) >= heartbeat && old(s.conn.Backlog()) == []
                                     then Encode(Heartbeat(now, |ring.log|)) else [])
      ensures s.lastTx == if s.conn.Backlog() == old(s.conn.Backlog()) then old(s.lastTx) else now
      ensures s.conn.accepted == old(s.conn.accepted)
    {
      if Modular.Minus(now, s.lastTx) >= heartbeat && !s.conn.Pending() {
        s.Control(Heartbeat(now, ring.head), now);
      } else {
        assert s.conn.Backlog() + [] == s.conn.Backlog();
      }
    }

    /** What a pump at `now` queues for subscriber `s`, and where its cursor goes. */
    ghost function Batched(s: Subscriber, now: U64): (b: Batch)
      requires Serves(s)
      reads this, ring, ring.buf, s, s.conn
      ensures !s.subscribed ==> b == Batch([], s.nextSeq)
    {
      if s.subscribed then PumpedAt(cfg, ring.log, s.nextSeq, s.AsWatch(), now, heartbeat) else Batch([], s.nextSeq)
    }

    /** Queues the gap and the data frames of a pump. */
    method Advance(s: Subscriber, now: U64)
      requires Serves(s) && s.subscribed
      modifies s`nextSeq, s`lastTx, s.conn
      ensures Serves(s) && s.conn.accepted == old(s.conn.accepted)
      ensures var (was, moved) := (old(s.conn.Backlog()), Moved(cfg, ring.log, old(s.nextSeq), |old(s.conn.Backlog())|));
              && s.nextSeq == moved.next && s.conn.Backlog() == was + EncodeAll(moved.fs)
              && s.lastTx == if moved.fs != [] then now else old(s.lastTx)
    {
      ghost var was, next := s.conn.Backlog(), s.nextSeq;
      Skip(s, now);
      Copy(s, now);
      MovedBytes(cfg, ring.log, next, was);
    }

    /** Advances the cursor of a subscriber and queues a heartbeat if one is due. */
    method Refill(s: Subscriber, now: U64)
      requires Serves(s) && s.subscribed
      modifies s`nextSeq, s`lastTx, s.conn
      ensures Serves(s) && s.conn.accepted == old(s.conn.accepted) && s.nextSeq == old(Batched(s, now)).next
      ensures s.conn.Backlog() == old(s.conn.Backlog()) + EncodeAll(old(Batched(s, now)).fs)
      ensures s.lastTx == if EncodeAll(old(Batched(s, now)).fs) != [] || old(s.lastTx) == 0 then now else old(s.lastTx)
    {
      ghost var was, next, last := s.conn.Backlog(), s.nextSeq, s.lastTx;
      if s.lastTx == 0 { s.lastTx := now; }
      Advance(s, now);
      ghost var moved := Moved(cfg, ring.log, next, |was|);
      EncodeAllEmpty(moved.fs);
      Beat(s, now);
      PumpedBytes(cfg, ring.log, next, was, Due(now, last, moved.fs != [], heartbeat), now);
    }

    /** Starts the heartbeat clock, and refills the backlog of a subscriber that has subscribed. */
    method Fill(s: Subscriber, now: U64)
      requires Serves(s)
      modifies s`nextSeq, s`lastTx, s.conn
      ensures Serves(s) && s.nextSeq == old(Batched(s, now)).next
      ensures var e := EncodeAll(old(Batched(s, now)).fs);
              && s.conn.Backlog() == old(s.conn.Backlog()) + e && s.conn.queued == old(s.conn.queued) + e
              && s.lastTx == if e != [] || old(s.lastTx) == 0 then now else old(s.lastTx)
    {
      ghost var accepted, was, e := s.conn.accepted, s.conn.Backlog(), EncodeAll(Batched(s, now).fs);
      if s.subscribed {
        Refill(s, now);
      } else {
        if s.lastTx == 0 { s.lastTx := now; }
        assert was + [] == was;
      }
      Assoc(accepted, was, e);
    }

    /** Flushes, and keeps the time since when the socket has taken nothing; false if the peer is gone. */
    method Send(s: Subscriber, now: U64, rs: seq<Io>) returns (ok: bool)
      requires s.conn.Valid()
      modifies s`stalledSince, s.conn
      ensures s.conn.Sound() && (ok ==> s.conn.Valid()) && s.conn.queued == old(s.conn.queued)
      ensures var (was, r) := (old(s.conn.Backlog()), Taken(|old(s.conn.Backlog())|, rs));
              var v := Visit.Pump(now, 0, r.0);
              && s.conn.Backlog() == was[r.0..]
              && ok == (r.1 && !Drops(old(s.AsWatch()), v, timeout))
              && (r.1 ==> s.stalledSince == Visited(old(s.AsWatch()), v).since)
    {
      var before := |s.conn.Backlog()|;
      ok := s.conn.FlushAndArm(rs);
      if !ok { return; }
      if s.conn.Pending() && |s.conn.Backlog()| == before {
        if s.stalledSince == 0 { s.stalledSince := now; }
        if Modular.Minus(now, s.stalledSince) >= timeout { return false; }
      } else {
        s.stalledSince := 0;
      }
    }

    /** One pump of a subscriber; false means drop it. */
    method Pump(s: Subscriber, now: U64, rs: seq<Io>) returns (ok: bool)
      requires Serves(s) && s.Watched()
      modifies s`nextSeq, s`lastTx, s`stalledSince, s`record, s.conn
      ensures s.conn.Sound() && (ok ==> Serves(s))
      ensures var b := old(Batched(s, now));
              var all := old(s.conn.Backlog()) + EncodeAll(b.fs);
              var r := Taken(|all|, rs);
              && s.nextSeq == b.next
              && s.conn.queued == old(s.conn.queued) + EncodeAll(b.fs)
              && s.conn.Backlog() == all[r.0..]
              && (var v := Visit.Pump(now, |EncodeAll(b.fs)|, r.0);
                  s.record == Enter(old(s.record), v) && ok == (r.1 && !Drops(old(s.record).watch, v, timeout)))
              && (r.1 ==> s.Watched())
    {
      ghost var was, e := s.conn.Backlog(), EncodeAll(Batched(s, now).fs);
      ghost var v := Visit.Pump(now, |e|, Taken(|was + e|, rs).0);
      Fill(s, now);
      ok := Send(s, now, rs);
      s.record := Enter(s.record, v);
    }

    /** Flushes when the socket has room again; the stall timer is left alone. False means drop the subscriber. */
    method OnWritable(s: Subscriber, rs: seq<Io>) returns (ok: bool)
      requires Serves(s) && s.Watched()
      modifies s`record, s.conn
      ensures s.conn.Sound() && (ok ==> Serves(s)) && s.conn.queued == old(s.conn.queued)
      ensures var (was, r) := (old(s.conn.Backlog()), Taken(|old(s.conn.Backlog())|, rs));
              && ok == r.1 && s.conn.Backlog() == was[r.0..]
              && s.record == Enter(old(s.record), Writable(r.0)) && s.Watched()
    {
      s.record := Enter(s.record, Writable(Taken(|s.conn.Backlog()|, rs).0));
      ok := s.conn.FlushAndArm(rs);
    }

    /** Takes in bytes from a subscriber, whose first and only frame is a Subscribe; false means drop it. */
    method OnReadable(s: Subscriber, chunk: Bytes) returns (keep: bool)
      requires Serves(s) && s.Watched()
      modifies s, s.conn
      ensures Serves(s) && s.Watched() && s.stalledSince == old(s.stalledSince)
      ensures var (rx, n) := (old(s.rx) + chunk, SizeFor(SUBSCRIBE));
              && keep == (|rx| < n || (|rx| == n && !old(s.subscribed)
                                       && ReadHeader(rx) == Header(16, SUBSCRIBE, VERSION, ReadHeader(rx).seqNo)))
              && (keep && |rx| == n ==>
                    var b := Greeting(ring.log, U64At(rx, 8));
                    && s.subscribed && s.rx == [] && s.nextSeq == b.next
                    && s.conn.queued == old(s.conn.queued) + EncodeAll(b.fs)
                    && s.conn.Backlog() == old(s.conn.Backlog()) + EncodeAll(b.fs)
                    && s.record == Enter(old(s.record), Greeted(|EncodeAll(b.fs)|)))
              && (|rx| != n || !keep ==>
                    && s.rx == rx && s.subscribed == old(s.subscribed) && s.nextSeq == old(s.nextSeq)
                    && s.conn.queued == old(s.conn.queued) && s.conn.Backlog() == old(s.conn.Backlog())
                    && s.record == old(s.record) && s.lastTx == old(s.lastTx))
    {
      s.rx := s.rx + chunk;
      if |s.rx| < SizeFor(SUBSCRIBE) { return true; }
      var h := ReadHeader(s.rx);
      if s.subscribed || !IsSubscribe(h) || |s.rx| > SizeFor(SUBSCRIBE) { return false; }
      var from := U64At(s.rx, 8);
      s.rx, s.subscribed := [], true;
      Greet(s, from);
      return true;
    }

    /** Answers a Subscribe asking for `from`. */
    method Greet(s: Subscriber, from: U64)
      requires Valid() && s.conn.Valid() && s.Watched()
      modifies s`nextSeq, s`lastTx, s`record, s.conn
      ensures Valid() && s.conn.Valid() && s.Watched() && 1 <= s.nextSeq <= |ring.log| + 1
      ensures var b := Greeting(ring.log, from);
              && s.nextSeq == b.next && s.conn.queued == old(s.conn.queued) + EncodeAll(b.fs)
              && s.conn.Backlog() == old(s.conn.Backlog()) + EncodeAll(b.fs)
              && s.record == Enter(old(s.record), Greeted(|EncodeAll(b.fs)|))
    {
      StartAt(s, from);
      EncodeAllEmpty(Greeting(ring.log, from).fs);
      s.record := Enter(s.record, Greeted(|EncodeAll(Greeting(ring.log, from).fs)|));
    }

    /** Sets the cursor, telling a client ahead of the head so. */
    method StartAt(s: Subscriber, from: U64)
      requires Valid() && s.conn.Valid()
      modifies s`nextSeq, s`lastTx, s.conn
      ensures Valid() && s.conn.Valid() && 1 <= s.nextSeq <= |ring.log| + 1
      ensures var b := Greeting(ring.log, from);
              && s.nextSeq == b.next && s.conn.queued == old(s.conn.queued) + EncodeAll(b.fs)
              && s.conn.Backlog() == old(s.conn.Backlog()) + EncodeAll(b.fs)
              && s.lastTx == if b.fs == [] then old(s.lastTx) else 0
    {
      var head := ring.head;
      if from == 0 || from > head + 1 {
        if from > head + 1 {
          EncodeOne(Gap(from, head + 1));
          s.Control(Gap(from, head + 1), 0);
        } else {
          assert s.conn.queued + [] == s.conn.queued && s.conn.Backlog() + [] == s.conn.Backlog();
        }
        s.nextSeq := head + 1;
      } else {
        s.nextSeq := from;
        assert s.conn.queued + [] == s.conn.queued && s.conn.Backlog() + [] == s.conn.Backlog();
      }
    }
  }

  predicate IsSubscribe(h: Header) {
    h.version == VERSION && h.len == SizeFor(SUBSCRIBE) && h.kind == SUBSCRIBE
  }

  // ---------------------------------------------------------------- the copying loop

  /** Copying began at `from` with `was` queued and has reached `next` with `backlog` queued. */
  ghost predicate Copying(cfg: Config, log: Log, from: nat, was: Bytes, next: nat, backlog: Bytes) {
    && 1 <= from <= next
    && (var (all, left) := (Copied(cfg, log, from, |was|), Copied(cfg, log, next, |backlog|));
        from + |all| == next + |left| && backlog + EncodeAll(left) == was + EncodeAll(all))
  }

  lemma CopyStarts(cfg: Config, log: Log, from: nat, was: Bytes)
    requires 1 <= from
    ensures Copying(cfg, log, from, was, from, was)
  {
  }

  lemma CopyStep(cfg: Config, log: Log, from: nat, was: Bytes, next: nat, backlog: Bytes)
    requires Copying(cfg, log, from, was, next, backlog) && next <= |log| && |backlog| < cfg.max
    ensures Copying(cfg, log, from, was, next + 1, backlog + FrameOf(log, next))
  {
    var f := Data(next, log[next - 1]);
    var rest := Copied(cfg, log, next + 1, |backlog + Encode(f)|);
    assert ([f] + rest)[1..] == rest;
    Assoc(backlog, Encode(f), EncodeAll(rest));
  }

  lemma CopyEnds(cfg: Config, log: Log, from: nat, was: Bytes, next: nat, backlog: Bytes)
    requires Copying(cfg, log, from, was, next, backlog) && (next > |log| || |backlog| >= cfg.max)
    ensures var all := Copied(cfg, log, from, |was|);
            next == from + |all| && backlog == was + EncodeAll(all) && (next == from <==> all == [])
  {
    assert backlog + [] == backlog;
  }

  /** The gap, then the data, are what one pump moves. */
  lemma MovedBytes(cfg: Config, log: Log, next: nat, was: Bytes)
    requires 1 <= next <= |log| + 1
    ensures var (r, gap) := (Resumed(cfg, log, next, |was|), Skipped(cfg, log, next, |was|));
            && r.size == |was + EncodeAll(gap)|
            && was + EncodeAll(gap) + EncodeAll(Copied(cfg, log, r.next, r.size))
               == was + EncodeAll(Moved(cfg, log, next, |was|).fs)
  {
    var r, gap := Resumed(cfg, log, next, |was|), Skipped(cfg, log, next, |was|);
    var data := Copied(cfg, log, r.next, r.size);
    EncodeAllConcat(gap, data);
    Assoc(was, EncodeAll(gap), EncodeAll(data));
  }

  lemma PumpedBytes(cfg: Config, log: Log, next: nat, was: Bytes, due: bool, ts: U64)
    requires 1 <= next <= |log| + 1
    ensures var (b, moved) := (Pumped(cfg, log, next, |was|, due, ts), was + EncodeAll(Moved(cfg, log, next, |was|).fs));
            was + EncodeAll(b.fs) == moved + (if due && moved == [] then Encode(Heartbeat(ts, |log|)) else [])
  {
    var m := Moved(cfg, log, next, |was|);
    if due && |was| + |EncodeAll(m.fs)| == 0 {
      var hb := Heartbeat(ts, |log|);
      EncodeAllConcat(m.fs, [hb]);
      EncodeOne(hb);
      Assoc(was, EncodeAll(m.fs), Encode(hb));
    }
  }
}
