/**
 The market-data feed of one subscriber: the frames on the wire, what the publisher queues for a
 cursor into the replay ring, and the chain those frames form.
 */
module Feed {
  import opened Types
  import opened Wire

  // ---------------------------------------------------------------- frames

  datatype Body = Body(kind: byte, payload: Bytes)

  /** The size of a Trade and of a Top on the wire, and of a Gap and of a Heartbeat. */
  const DATA_FRAME: nat := 40
  const CONTROL_FRAME: nat := 24

  /** A published message: a Trade or a Top. */
  type Item = i: Body | (i.kind == TRADE || i.kind == TOP) && HEADER + |i.payload| == DATA_FRAME
    witness Body(TRADE, seq(DATA_FRAME - HEADER, _ => 0))

  /** Everything published so far; the frame of sequence n is at n - 1. Sequences stay below 2^32 - 1. */
  type Log = l: seq<Item> | |l| < TWO32 - 1 witness []

  datatype Frame = Data(seqNo: U32, item: Item) | Gap(from: U64, resumed: U64) | Heartbeat(ts: U64, head: U64)

  function HeaderOf(f: Frame): Header {
    match f
    case Data(n, i) => Header(HEADER + |i.payload|, i.kind, VERSION, n)
    case Gap(_, _) => Header(CONTROL_FRAME, GAP, VERSION, 0)
    case Heartbeat(_, _) => Header(CONTROL_FRAME, HEARTBEAT, VERSION, 0)
  }

  function Payload(f: Frame): Bytes {
    match f
    case Data(_, i) => i.payload
    case Gap(from, resumed) => LE(from, 8) + LE(resumed, 8)
    case Heartbeat(ts, head) => LE(ts, 8) + LE(head, 8)
  }

  function Encode(f: Frame): (b: Bytes)
    ensures HEADER <= |b| == HeaderOf(f).len <= MAX_FRAME && |b| == if f.Data? then DATA_FRAME else CONTROL_FRAME
  {
    EncodeHeader(HeaderOf(f)) + Payload(f)
  }

  function EncodeAll(fs: seq<Frame>): Bytes {
    if fs == [] then [] else Encode(fs[0]) + EncodeAll(fs[1..])
  }

  lemma {:induction false} EncodeAllConcat(a: seq<Frame>, b: seq<Frame>)
    ensures EncodeAll(a + b) == EncodeAll(a) + EncodeAll(b)
  {
    if a == [] {
      assert a + b == b && EncodeAll(a) + EncodeAll(b) == EncodeAll(b);
    } else {
      TailConcat(a, b);
      EncodeAllConcat(a[1..], b);
      Assoc(Encode(a[0]), EncodeAll(a[1..]), EncodeAll(b));
    }
  }

  lemma EncodeOne(f: Frame)
    ensures EncodeAll([f]) == Encode(f)
  {
    assert [f][1..] == [] && Encode(f) + [] == Encode(f);
  }

  lemma EncodeAllEmpty(fs: seq<Frame>)
    ensures EncodeAll(fs) == [] ==> fs == []
  {
    if fs != [] { assert |EncodeAll(fs)| == |Encode(fs[0])| + |EncodeAll(fs[1..])|; }
  }

  /** The two 64-bit fields of a control frame read back. */
  lemma ControlFields(h: Bytes, a: U64, b: U64)
    requires |h| == HEADER
    ensures U64At(h + (LE(a, 8) + LE(b, 8)), 8) == a && U64At(h + (LE(a, 8) + LE(b, 8)), 16) == b
  {
    Widths();
    var p := LE(a, 8) + LE(b, 8);
    FieldSkip(h, p, 8, 8);
    FieldHead(a, 8, LE(b, 8));
    FieldSkip(h, p, 16, 8);
    FieldSkip(LE(a, 8), LE(b, 8), 8, 8);
    FieldHead(b, 8, []);
    assert LE(b, 8) + [] == LE(b, 8);
    ReadsField(h + p, 8);
    ReadsField(h + p, 16);
  }

  /** How a frame lies on the wire: length, type, version and sequence, then the payload or the two fields. */
  lemma FrameLayout(f: Frame)
    ensures var b := Encode(f);
            && Field(b, 0, 2) == |b| && b[3] == VERSION
            && match f
               case Data(n, i) => b[2] == i.kind && Field(b, 4, 4) == n && b[HEADER..] == i.payload
               case Gap(from, resumed) =>
                 b[2] == GAP && Field(b, 4, 4) == 0 && Field(b, 8, 8) == from && Field(b, 16, 8) == resumed
               case Heartbeat(ts, head) =>
                 b[2] == HEARTBEAT && Field(b, 4, 4) == 0 && Field(b, 8, 8) == ts && Field(b, 16, 8) == head
  {
    var b := Encode(f);
    HeaderReads(f, []);
    assert b + [] == b;
    HeaderLayout(b);
    ReadsField(b, 8);
    ReadsField(b, 16);
    match f
    case Data(_, i) => assert b[HEADER..] == i.payload;
    case Gap(x, y) => ControlFields(EncodeHeader(HeaderOf(f)), x, y);
    case Heartbeat(x, y) => ControlFields(EncodeHeader(HeaderOf(f)), x, y);
  }

  lemma HeaderReads(f: Frame, rest: Bytes)
    ensures ReadHeader(Encode(f) + rest) == HeaderOf(f)
  {
    Assoc(EncodeHeader(HeaderOf(f)), Payload(f), rest);
    HeaderRoundTrip(HeaderOf(f), Payload(f) + rest);
  }

  // ---------------------------------------------------------------- the chain

  /**
   The sequence a client expecting `at` expects after frame `f`, or None if `f` does not belong there:
   a data frame is the frame published under `at`, a Gap starts at `at`, a Heartbeat says that `at` is
   the next sequence to be published. With `forward`, gaps only move forward.
   */
  function After(log: Log, forward: bool, at: nat, f: Frame): Option<nat> {
    match f
    case Data(n, i) => if n == at && 1 <= n <= |log| && log[n - 1] == i then Some(n + 1) else None
    case Gap(a, b) => if a == at && (forward ==> a < b) && 1 <= b <= |log| + 1 then Some(b) else None
    case Heartbeat(_, h) => if h + 1 == at <= |log| + 1 then Some(at) else None
  }

  /** The frames `fs` take a client expecting `at` to expecting `end`, each belonging where it stands. */
  predicate Chain(log: Log, forward: bool, at: nat, fs: seq<Frame>, end: nat)
    decreases |fs|
  {
    if fs == [] then at == end
    else After(log, forward, at, fs[0]).Some? && Chain(log, forward, After(log, forward, at, fs[0]).value, fs[1..], end)
  }

  lemma {:induction false} ChainConcat(log: Log, forward: bool, at: nat, a: seq<Frame>, mid: nat, b: seq<Frame>, end: nat)
    requires Chain(log, forward, at, a, mid) && Chain(log, forward, mid, b, end)
    ensures Chain(log, forward, at, a + b, end)
    decreases |a|
  {
    if a == [] {
      assert a + b == b;
    } else {
      TailConcat(a, b);
      ChainConcat(log, forward, After(log, forward, at, a[0]).value, a[1..], mid, b, end);
    }
  }

  /** Publishing more, or asking less of the gaps, keeps a chain a chain. */
  lemma {:induction false} ChainKept(log: Log, forward: bool, at: nat, fs: seq<Frame>, end: nat, more: Log, forward': bool)
    requires Chain(log, forward, at, fs, end) && log <= more && (forward' ==> forward)
    ensures Chain(more, forward', at, fs, end)
    decreases |fs|
  {
    if fs != [] {
      ChainKept(log, forward, After(log, forward, at, fs[0]).value, fs[1..], end, more, forward');
    }
  }

  lemma ChainOne(log: Log, forward: bool, at: nat, f: Frame)
    requires After(log, forward, at, f).Some?
    ensures Chain(log, forward, at, [f], After(log, forward, at, f).value)
  {
    assert [f][1..] == [];
  }

  // ---------------------------------------------------------------- what the publisher queues

  /** Frames retained, and bytes queued beyond which a cursor waits. */
  datatype Config = Config(cap: nat, max: nat)

  /** The ring retains sequence `m`: it is one of the last `cap` of the `head` published. */
  predicate Recent(cap: nat, head: nat, m: nat) {
    1 <= m <= head && head - m < cap
  }

  /** The oldest sequence the ring retains. */
  function Oldest(cap: nat, head: nat): nat {
    if head > cap then head - cap + 1 else 1
  }

  datatype Batch = Batch(fs: seq<Frame>, next: nat)

  /** The Gap for a cursor the ring has lapped, with `size` bytes queued before it. */
  function Skipped(cfg: Config, log: Log, next: nat, size: nat): seq<Frame>
    requires next <= |log| + 1
  {
    if size < cfg.max && next < Oldest(cfg.cap, |log|) then
      assert Oldest(cfg.cap, |log|) <= |log| + 1;
      [Gap(next, Oldest(cfg.cap, |log|))]
    else []
  }

  /** The data frames copied from `next` on, while fewer than `max` bytes are queued. */
  function Copied(cfg: Config, log: Log, next: nat, size: nat): seq<Frame>
    requires 1 <= next
    decreases |log| + 1 - next
  {
    if next <= |log| && size < cfg.max then
      var f := Data(next, log[next - 1]);
      [f] + Copied(cfg, log, next + 1, size + |Encode(f)|)
    else []
  }

  /** A cursor and the number of bytes queued ahead of it. */
  datatype Place = Place(next: nat, size: nat)

  /** The place once the Gap, if any, is queued. */
  function Resumed(cfg: Config, log: Log, next: nat, size: nat): (r: Place)
    requires 1 <= next <= |log| + 1
    ensures 1 <= r.next <= |log| + 1
  {
    var gap := Skipped(cfg, log, next, size);
    Place(if gap == [] then next else Oldest(cfg.cap, |log|), size + |EncodeAll(gap)|)
  }

  /** The gap and the data frames of one pump. */
  function Moved(cfg: Config, log: Log, next: nat, size: nat): (b: Batch)
    requires 1 <= next <= |log| + 1
  {
    var r := Resumed(cfg, log, next, size);
    var data := Copied(cfg, log, r.next, r.size);
    Batch(Skipped(cfg, log, next, size) + data, r.next + |data|)
  }

  /** One pump of a cursor with `size` bytes queued; `due` says whether a heartbeat is due. */
  function Pumped(cfg: Config, log: Log, next: nat, size: nat, due: bool, ts: U64): Batch
    requires 1 <= next <= |log| + 1
  {
    var b := Moved(cfg, log, next, size);
    if due && size + |EncodeAll(b.fs)| == 0 then b.(fs := b.fs + [Heartbeat(ts, |log|)]) else b
  }

  /** What a Subscribe asking for `from` queues, and where its cursor starts. */
  function Greeting(log: Log, from: U64): Batch {
    if from > |log| + 1 then Batch([Gap(from, |log| + 1)], |log| + 1)
    else Batch([], if from == 0 then |log| + 1 else from)
  }

  /** The first sequence a client that asked for `from` expects. */
  function Asked(log: Log, from: U64): nat {
    if from == 0 then |log| + 1 else from
  }

  /**
   A subscriber starts with the sequence asked for, or with the next to be published if it asks for none; one ahead of
   the head is told so, and starts there.
   */
  lemma GreetingChain(log: Log, from: U64)
    ensures Chain(log, from <= |log| + 1, Asked(log, from), Greeting(log, from).fs, Greeting(log, from).next)
    ensures 1 <= Greeting(log, from).next <= |log| + 1
    ensures from <= |log| + 1 ==> Greeting(log, from).fs == []
    ensures Greeting(log, from).next == |log| + 1 <==> from == 0 || from > |log|
  {
    var b := Greeting(log, from);
    if from > |log| + 1 { ChainOne(log, false, from, b.fs[0]); }
  }

  /** Copying follows the log. */
  lemma {:induction false} CopiedChain(cfg: Config, log: Log, next: nat, size: nat)
    requires 1 <= next <= |log| + 1
    ensures var fs := Copied(cfg, log, next, size);
            next + |fs| <= |log| + 1 && Chain(log, true, next, fs, next + |fs|)
    decreases |log| + 1 - next
  {
    if next <= |log| && size < cfg.max {
      var f := Data(next, log[next - 1]);
      var rest := Copied(cfg, log, next + 1, size + |Encode(f)|);
      CopiedChain(cfg, log, next + 1, size + |Encode(f)|);
      assert ([f] + rest)[1..] == rest;
    }
  }

  /** How many of `n` frames are copied into `room` bytes: one more while any room is left. */
  function Count(n: nat, room: int): nat {
    if n == 0 || room <= 0 then 0 else 1 + Count(n - 1, room - DATA_FRAME)
  }

  lemma {:induction false} CopiedMany(cfg: Config, log: Log, next: nat, size: nat)
    requires 1 <= next <= |log| + 1
    ensures var fs := Copied(cfg, log, next, size);
            |fs| == Count(|log| + 1 - next, cfg.max - size) && forall f | f in fs :: f.Data?
    decreases |log| + 1 - next
  {
    if next <= |log| && size < cfg.max { CopiedMany(cfg, log, next + 1, size + DATA_FRAME); }
  }

  lemma {:induction false} DataBytes(fs: seq<Frame>)
    requires forall f | f in fs :: f.Data?
    ensures |EncodeAll(fs)| == DATA_FRAME * |fs|
  {
    if fs != [] { DataBytes(fs[1..]); }
  }

  lemma CopiedCount(cfg: Config, log: Log, next: nat, size: nat)
    requires 1 <= next <= |log| + 1
    ensures var fs := Copied(cfg, log, next, size);
            |fs| == Count(|log| + 1 - next, cfg.max - size) && |EncodeAll(fs)| == DATA_FRAME * |fs|
  {
    CopiedMany(cfg, log, next, size);
    DataBytes(Copied(cfg, log, next, size));
  }

  /** Copying ends with the frames or the room, and goes beyond the room by less than a frame. */
  lemma {:induction false} CountEnds(n: nat, room: int)
    ensures Count(n, room) <= n && (Count(n, room) == n || DATA_FRAME * Count(n, room) >= room)
    ensures Count(n, room) > 0 ==> DATA_FRAME * Count(n, room) < room + DATA_FRAME
  {
    if n > 0 && room > 0 { CountEnds(n - 1, room - DATA_FRAME); }
  }

  /** It stays within the room iff all frames fit or a whole number of frames does. */
  lemma {:induction false} CountFits(n: nat, room: nat)
    ensures DATA_FRAME * Count(n, room) <= room <==> DATA_FRAME * n <= room || room % DATA_FRAME == 0
  {
    if n > 0 && room >= DATA_FRAME { CountFits(n - 1, room - DATA_FRAME); }
  }

  /** Copying stops at the head or at the limit, and overshoots that by less than a frame. */
  lemma CopiedSize(cfg: Config, log: Log, next: nat, size: nat)
    requires 1 <= next <= |log| + 1
    ensures var fs := Copied(cfg, log, next, size);
            && (next + |fs| == |log| + 1 || size + |EncodeAll(fs)| >= cfg.max)
            && (size < cfg.max + DATA_FRAME ==> size + |EncodeAll(fs)| < cfg.max + DATA_FRAME)
  {
    CopiedCount(cfg, log, next, size);
    CountEnds(|log| + 1 - next, cfg.max - size);
  }

  lemma SkippedSize(cfg: Config, log: Log, next: nat, size: nat)
    requires 1 <= next <= |log| + 1
    ensures size < cfg.max + DATA_FRAME ==> Resumed(cfg, log, next, size).size < cfg.max + DATA_FRAME
  {
    var gap := Skipped(cfg, log, next, size);
    if gap != [] { EncodeOne(gap[0]); }
  }

  lemma MovedChain(cfg: Config, log: Log, next: nat, size: nat)
    requires 1 <= next <= |log| + 1
    ensures var b := Moved(cfg, log, next, size);
            b.next <= |log| + 1 && Chain(log, true, next, b.fs, b.next)
  {
    var r := Resumed(cfg, log, next, size);
    var gap, data := Skipped(cfg, log, next, size), Copied(cfg, log, r.next, r.size);
    CopiedChain(cfg, log, r.next, r.size);
    if gap == [] {
      assert gap + data == data;
    } else {
      assert (gap + data)[1..] == data;
    }
  }

  lemma MovedSize(cfg: Config, log: Log, next: nat, size: nat)
    requires 1 <= next <= |log| + 1
    ensures var b := Moved(cfg, log, next, size);
            && (b.next == |log| + 1 || size + |EncodeAll(b.fs)| >= cfg.max)
            && (size < cfg.max + DATA_FRAME ==> size + |EncodeAll(b.fs)| < cfg.max + DATA_FRAME)
  {
    var r := Resumed(cfg, log, next, size);
    var gap, data := Skipped(cfg, log, next, size), Copied(cfg, log, r.next, r.size);
    SkippedSize(cfg, log, next, size);
    CopiedSize(cfg, log, r.next, r.size);
    EncodeAllConcat(gap, data);
  }

  /**
   One pump: the frames queued continue the chain from the cursor's old place to its new one, and the
   backlog stays below the limit plus one frame.
   */
  lemma PumpedChain(cfg: Config, log: Log, next: nat, size: nat, due: bool, ts: U64)
    requires cfg.max > 0 && 1 <= next <= |log| + 1
    ensures var b := Pumped(cfg, log, next, size, due, ts);
            && 1 <= b.next <= |log| + 1
            && Chain(log, true, next, b.fs, b.next)
            && (size < cfg.max + DATA_FRAME ==> size + |EncodeAll(b.fs)| < cfg.max + DATA_FRAME)
  {
    var b := Moved(cfg, log, next, size);
    MovedChain(cfg, log, next, size);
    MovedSize(cfg, log, next, size);
    if due && size + |EncodeAll(b.fs)| == 0 {
      var hb := Heartbeat(ts, |log|);
      ChainOne(log, true, b.next, hb);
      ChainConcat(log, true, next, b.fs, b.next, [hb], b.next);
      EncodeAllConcat(b.fs, [hb]);
      EncodeOne(hb);
    }
  }

  // ---------------------------------------------------------------- what a Gap leaves out

  lemma OldestIs(cap: nat, head: nat, m: nat)
    ensures Recent(cap, head, m) <==> Oldest(cap, head) <= m <= head
  {
  }

  /** A Gap from `next` leaves out exactly the sequences from there on that the ring no longer retains. */
  ghost predicate LeavesOut(cfg: Config, log: Log, next: nat, f: Frame) {
    f.Gap? && f.from == next && forall n: nat | next <= n <= |log| :: n < f.resumed <==> !Recent(cfg.cap, |log|, n)
  }

  lemma {:induction false} CopiedAhead(cfg: Config, log: Log, next: nat, size: nat)
    requires 1 <= next <= |log| + 1
    ensures forall f | f in Copied(cfg, log, next, size) :: f.Data? && next <= f.seqNo <= |log|
    decreases |log| + 1 - next
  {
    if next <= |log| && size < cfg.max { CopiedAhead(cfg, log, next + 1, size + DATA_FRAME); }
  }

  /**
   A pump queues a Gap iff the cursor can move and stands at a frame no longer retained. The Gap comes first, leaves
   out exactly the frames that are gone, and the data frames are retained ones.
   */
  lemma GapsAreExact(cfg: Config, log: Log, next: nat, size: nat, due: bool, ts: U64)
    requires 1 <= next <= |log| + 1
    ensures var fs := Pumped(cfg, log, next, size, due, ts).fs;
            && (forall f | f in fs && f.Gap? :: f == fs[0] && LeavesOut(cfg, log, next, f))
            && (forall f | f in fs && f.Data? :: Recent(cfg.cap, |log|, f.seqNo))
            && (fs != [] && fs[0].Gap? <==> size < cfg.max && next <= |log| && !Recent(cfg.cap, |log|, next))
  {
    var r := Resumed(cfg, log, next, size);
    CopiedAhead(cfg, log, r.next, r.size);
    forall n: nat ensures Recent(cfg.cap, |log|, n) <==> Oldest(cfg.cap, |log|) <= n <= |log| {
      OldestIs(cfg.cap, |log|, n);
    }
  }

  // ---------------------------------------------------------------- the limit on the backlog

  /** Room for the frames left, or for a whole number of frames; and room for a heartbeat if one comes. */
  predicate RoomFor(cfg: Config, r: Place, head: nat, due: bool)
    requires r.next <= head + 1
  {
    && r.size <= cfg.max
    && (DATA_FRAME * (head + 1 - r.next) <= cfg.max - r.size || (cfg.max - r.size) % DATA_FRAME == 0)
    && (due && r.size == 0 && (r.next == head + 1 || cfg.max == 0) ==> CONTROL_FRAME <= cfg.max)
  }

  /** What the gap and the data frames of a pump leave queued, in bytes. */
  function TotalOf(cfg: Config, r: Place, head: nat): nat
    requires r.next <= head + 1
  {
    r.size + DATA_FRAME * Count(head + 1 - r.next, cfg.max - r.size)
  }

  lemma MovedSum(cfg: Config, log: Log, next: nat, size: nat)
    requires 1 <= next <= |log| + 1
    ensures var r := Resumed(cfg, log, next, size);
            size + |EncodeAll(Moved(cfg, log, next, size).fs)| == r.size + |EncodeAll(Copied(cfg, log, r.next, r.size))|
  {
    var r := Resumed(cfg, log, next, size);
    EncodeAllConcat(Skipped(cfg, log, next, size), Copied(cfg, log, r.next, r.size));
  }

  lemma CopiedTotal(cfg: Config, log: Log, r: Place)
    requires 1 <= r.next <= |log| + 1
    ensures r.size + |EncodeAll(Copied(cfg, log, r.next, r.size))| == TotalOf(cfg, r, |log|)
  {
    CopiedCount(cfg, log, r.next, r.size);
  }

  lemma MovedTotal(cfg: Config, log: Log, next: nat, size: nat)
    requires 1 <= next <= |log| + 1
    ensures size + |EncodeAll(Moved(cfg, log, next, size).fs)| == TotalOf(cfg, Resumed(cfg, log, next, size), |log|)
  {
    MovedSum(cfg, log, next, size);
    CopiedTotal(cfg, log, Resumed(cfg, log, next, size));
  }

  lemma PumpedTotal(cfg: Config, log: Log, next: nat, size: nat, due: bool, ts: U64)
    requires 1 <= next <= |log| + 1
    ensures var moved := |EncodeAll(Moved(cfg, log, next, size).fs)|;
            |EncodeAll(Pumped(cfg, log, next, size, due, ts).fs)|
            == moved + (if due && size + moved == 0 then CONTROL_FRAME else 0)
  {
    var hb := Heartbeat(ts, |log|);
    EncodeAllConcat(Moved(cfg, log, next, size).fs, [hb]);
    EncodeOne(hb);
  }

  lemma TotalFits(cfg: Config, r: Place, head: nat, due: bool)
    requires r.next <= head + 1
    ensures var total := TotalOf(cfg, r, head);
            total + (if due && total == 0 then CONTROL_FRAME else 0) <= cfg.max <==> RoomFor(cfg, r, head, due)
  {
    if r.size <= cfg.max { CountFits(head + 1 - r.next, cfg.max - r.size); }
  }

  /** Exactly when a pump leaves no more queued than the limit. */
  lemma WithinLimitIff(cfg: Config, log: Log, next: nat, size: nat, due: bool, ts: U64)
    requires 1 <= next <= |log| + 1
    ensures size + |EncodeAll(Pumped(cfg, log, next, size, due, ts).fs)| <= cfg.max
            <==> RoomFor(cfg, Resumed(cfg, log, next, size), |log|, due)
  {
    MovedTotal(cfg, log, next, size);
    PumpedTotal(cfg, log, next, size, due, ts);
    TotalFits(cfg, Resumed(cfg, log, next, size), |log|, due);
  }

  /** A cursor that a heartbeat would be queued for, having skipped no frame. */
  predicate BeatsOnlyAtHead(cfg: Config, log: Log, next: nat, size: nat, ts: U64)
    requires 1 <= next <= |log| + 1
  {
    var b := Moved(cfg, log, next, size);
    Pumped(cfg, log, next, size, true, ts).fs != b.fs ==> b.next == |log| + 1 && size == 0
  }

  /** Heartbeats go only to cursors at the head with nothing queued, on every feed, iff the limit is positive. */
  lemma HeartbeatsAtHeadIff(cfg: Config)
    ensures cfg.max > 0 <==> forall log: Log, next: nat, size: nat, ts: U64 | 1 <= next <= |log| + 1 ::
                               BeatsOnlyAtHead(cfg, log, next, size, ts)
  {
    if cfg.max > 0 {
      forall log: Log, next: nat, size: nat, ts: U64 | 1 <= next <= |log| + 1
        ensures BeatsOnlyAtHead(cfg, log, next, size, ts)
      {
        MovedSize(cfg, log, next, size);
      }
    } else {
      var log: Log := [Body(TRADE, seq(DATA_FRAME - HEADER, _ => 0))];
      assert Moved(cfg, log, 1, 0) == Batch([], 1);
      assert Pumped(cfg, log, 1, 0, true, 0).fs == [Heartbeat(0, 1)];
      assert !BeatsOnlyAtHead(cfg, log, 1, 0, 0);
    }
  }
}
