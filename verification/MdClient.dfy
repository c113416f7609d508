/**
 The resuming market-data client: what it does with each frame, and its framing loop over the
 received bytes.
 */
module MdClient {
  import opened Types
  import opened Wire
  import opened Feed

  /** The client's counters; `jumps` counts the times a data frame was not the one expected. */
  datatype Client = Client(next: nat, frames: nat, gaps: nat, lost: int, beats: nat, jumps: nat)

  function Start(from: nat): Client {
    Client(from, 0, 0, 0, 0, 0)
  }

  function OnHeartbeat(c: Client, head: U64): Client {
    c.(beats := c.beats + 1, next := if head + 1 > c.next then head + 1 else c.next)
  }

  function OnGap(c: Client, from: U64, resumed: U64): Client {
    c.(gaps := c.gaps + 1, lost := c.lost + resumed - from, next := resumed)
  }

  function OnData(c: Client, seqNo: U32): Client {
    var d := if c.next != 0 && seqNo != c.next then
               c.(gaps := c.gaps + 1, lost := c.lost + seqNo - c.next, jumps := c.jumps + 1)
             else c;
    d.(next := seqNo + 1, frames := c.frames + 1)
  }

  /** What the client makes of a frame. */
  function Handle(c: Client, f: Frame): Client {
    match f
    case Data(n, _) => OnData(c, n)
    case Gap(from, resumed) => OnGap(c, from, resumed)
    case Heartbeat(_, head) => OnHeartbeat(c, head)
  }

  function HandleAll(c: Client, fs: seq<Frame>): Client
    decreases |fs|
  {
    if fs == [] then c else HandleAll(Handle(c, fs[0]), fs[1..])
  }

  /** How many of the frames are of one kind: data, gaps and heartbeats. */
  function Tally(fs: seq<Frame>): (nat, nat, nat) {
    if fs == [] then (0, 0, 0)
    else
      var t := Tally(fs[1..]);
      match fs[0]
      case Data(_, _) => (t.0 + 1, t.1, t.2)
      case Gap(_, _) => (t.0, t.1 + 1, t.2)
      case Heartbeat(_, _) => (t.0, t.1, t.2 + 1)
  }

  /** A Gap from the sequence expected, a Heartbeat that names nothing beyond it, or any data frame. */
  predicate Fits(c: Client, f: Frame) {
    match f
    case Data(_, _) => true
    case Gap(from, resumed) => from == c.next && resumed != 0
    case Heartbeat(_, head) => head < c.next
  }

  predicate FitsAll(c: Client, fs: seq<Frame>)
    decreases |fs|
  {
    fs == [] || (Fits(c, fs[0]) && FitsAll(Handle(c, fs[0]), fs[1..]))
  }

  /**
   Whatever data frames come: every frame, Gap and heartbeat is counted once, each jump counts as a gap, and frames
   and losses make up the distance gone.
   */
  lemma {:induction false} HandledCounts(c: Client, fs: seq<Frame>)
    ensures var (d, t) := (HandleAll(c, fs), Tally(fs));
            && d.frames == c.frames + t.0 && d.beats == c.beats + t.2
            && d.gaps - c.gaps == t.1 + (d.jumps - c.jumps)
            && (c.next != 0 && FitsAll(c, fs) ==> d.frames + d.lost - d.next == c.frames + c.lost - c.next)
    decreases |fs|
  {
    if fs != [] { HandledCounts(Handle(c, fs[0]), fs[1..]); }
  }

  /** The same from the bytes of a frame; None where unpacking a control frame of the wrong size fails. */
  function HandleBytes(c: Client, kind: byte, seqNo: U32, b: Bytes): (r: Option<Client>)
    ensures r.None? <==> (kind == HEARTBEAT || kind == GAP) && |b| != CONTROL_FRAME
    ensures kind != HEARTBEAT && kind != GAP ==> r.value.frames == c.frames + 1 && r.value.next == seqNo + 1
  {
    if kind == HEARTBEAT then if |b| == 24 then Some(OnHeartbeat(c, U64At(b, 16))) else None
    else if kind == GAP then if |b| == 24 then Some(OnGap(c, U64At(b, 8), U64At(b, 16))) else None
    else Some(OnData(c, seqNo))
  }

  lemma HandleEncoded(c: Client, f: Frame)
    ensures HandleBytes(c, HeaderOf(f).kind, HeaderOf(f).seqNo, Encode(f)) == Some(Handle(c, f))
  {
    match f
    case Data(_, _) =>
    case Gap(a, b) => ControlFields(EncodeHeader(HeaderOf(f)), a, b);
    case Heartbeat(a, b) => ControlFields(EncodeHeader(HeaderOf(f)), a, b);
  }

  /** The client, the bytes it keeps, and whether it is still going: not after a bad or an empty frame. */
  datatype Drained = Drained(c: Client, buf: Bytes, ok: bool)

  /** The framing loop. */
  function Drain(c: Client, buf: Bytes): Drained
    decreases |buf|
  {
    if |buf| < HEADER then Drained(c, buf, true)
    else
      var h := ReadHeader(buf);
      if |buf| < h.len then Drained(c, buf, true)
      else
        var r := HandleBytes(c, h.kind, h.seqNo, buf[..h.len]);
        if h.len == 0 || r.None? then Drained(c, buf, false) else Drain(r.value, buf[h.len..])
  }

  /** How many of the frames lie whole within the first `n` bytes of their encoding. */
  function Whole(fs: seq<Frame>, n: nat): (k: nat)
    ensures k <= |fs|
    decreases |fs|
  {
    if fs == [] || n < |Encode(fs[0])| then 0 else 1 + Whole(fs[1..], n - |Encode(fs[0])|)
  }

  /** The front of a buffer that starts an encoding: too short, or exactly the first frame. */
  lemma FrontFrame(buf: Bytes, more: Bytes, f: Frame, rest: Bytes)
    requires buf + more == Encode(f) + rest
    ensures |buf| >= HEADER ==> ReadHeader(buf) == HeaderOf(f)
    ensures |buf| >= |Encode(f)| ==> buf[..|Encode(f)|] == Encode(f) && buf[|Encode(f)|..] + more == rest
  {
    HeaderReads(f, rest);
    if |buf| >= HEADER { HeaderPrefix(buf, more); }
    if |buf| >= |Encode(f)| {
      var n := |Encode(f)|;
      assert buf[..n] == (buf + more)[..n] == (Encode(f) + rest)[..n];
      assert buf[n..] + more == (buf + more)[n..];
      assert (Encode(f) + rest)[n..] == rest;
    }
  }

  /** One turn of the loop on such a buffer. */
  lemma DrainTurn(c: Client, buf: Bytes, more: Bytes, f: Frame, rest: Bytes)
    requires buf + more == Encode(f) + rest
    ensures Drain(c, buf) == if |buf| < |Encode(f)| then Drained(c, buf, true) else Drain(Handle(c, f), buf[|Encode(f)|..])
  {
    FrontFrame(buf, more, f, rest);
    HandleEncoded(c, f);
  }

  /** The client `c` has become `d` by handling the first `k` of `fs`; `more` completes what it keeps. */
  predicate Took(d: Drained, c: Client, more: Bytes, fs: seq<Frame>, k: nat)
    requires k <= |fs|
  {
    d.ok && d.c == HandleAll(c, fs[..k]) && d.buf + more == EncodeAll(fs[k..])
  }

  lemma TookNone(c: Client, buf: Bytes, more: Bytes, fs: seq<Frame>)
    requires buf + more == EncodeAll(fs)
    ensures Took(Drained(c, buf, true), c, more, fs, 0)
  {
  }

  lemma TookFirst(d: Drained, c: Client, more: Bytes, fs: seq<Frame>, k: nat)
    requires fs != [] && k < |fs| && Took(d, Handle(c, fs[0]), more, fs[1..], k)
    ensures Took(d, c, more, fs, k + 1)
  {
    assert fs[..k + 1][1..] == fs[1..][..k];
    assert fs[k + 1..] == fs[1..][k..];
  }

  /**
   Given any prefix of the encodings of `fs`, the client handles exactly the frames that lie whole
   within it, in order, and keeps the rest.
   */
  lemma {:induction false} DrainFrames(c: Client, buf: Bytes, more: Bytes, fs: seq<Frame>)
    requires buf + more == EncodeAll(fs)
    ensures Took(Drain(c, buf), c, more, fs, Whole(fs, |buf|))
    decreases |fs|
  {
    if fs == [] {
      assert buf == [];
      TookNone(c, buf, more, fs);
    } else {
      var n, rest := |Encode(fs[0])|, EncodeAll(fs[1..]);
      DrainTurn(c, buf, more, fs[0], rest);
      if |buf| < n {
        TookNone(c, buf, more, fs);
      } else {
        FrontFrame(buf, more, fs[0], rest);
        DrainFrames(Handle(c, fs[0]), buf[n..], more, fs[1..]);
        TookFirst(Drain(c, buf), c, more, fs, Whole(fs[1..], |buf| - n));
      }
    }
  }

  lemma DrainOne(c: Client, f: Frame)
    ensures Drain(c, Encode(f)) == Drained(Handle(c, f), [], true)
  {
    assert Encode(f) + [] == Encode(f);
    DrainTurn(c, Encode(f), [], f, []);
  }

  // ---------------------------------------------------------------- the client object

  class Stream {
    var nextSeq: nat
    var frames: nat
    var gaps: nat
    var lost: int
    var heartbeats: nat
    var reconnects: nat
    var jumps: nat
    var buf: Bytes

    constructor (from: nat)
      ensures State() == Start(from) && buf == [] && reconnects == 0
    {
      nextSeq, frames, gaps, lost, heartbeats, reconnects, jumps, buf := from, 0, 0, 0, 0, 0, 0, [];
    }

    ghost function State(): Client
      reads this
    {
      Client(nextSeq, frames, gaps, lost, heartbeats, jumps)
    }

    /** Connects, giving the Subscribe frame sent; what was buffered is gone. */
    method Connect() returns (sent: Bytes)
      requires nextSeq < TWO64
      modifies this`buf
      ensures buf == [] && |sent| == SizeFor(SUBSCRIBE)
      ensures ReadHeader(sent) == Header(SizeFor(SUBSCRIBE), SUBSCRIBE, VERSION, 0) && U64At(sent, 8) == nextSeq
    {
      var h := Header(SizeFor(SUBSCRIBE), SUBSCRIBE, VERSION, 0);
      sent := EncodeHeader(h) + LE(nextSeq, 8);
      HeaderRoundTrip(h, LE(nextSeq, 8));
      Widths();
      FieldSkip(EncodeHeader(h), LE(nextSeq, 8), 8, 8);
      FieldHead(nextSeq, 8, []);
      assert LE(nextSeq, 8) + [] == LE(nextSeq, 8);
      ReadsField(sent, 8);
      buf := [];
    }

    method Reconnect() returns (sent: Bytes)
      requires nextSeq < TWO64
      modifies this`buf, this`reconnects
      ensures buf == [] && reconnects == old(reconnects) + 1 && |sent| == SizeFor(SUBSCRIBE)
      ensures ReadHeader(sent) == Header(SizeFor(SUBSCRIBE), SUBSCRIBE, VERSION, 0) && U64At(sent, 8) == nextSeq
    {
      reconnects := reconnects + 1;
      sent := Connect();
    }

    method HandleFrame(kind: byte, seqNo: U32, b: Bytes) returns (ok: bool)
      modifies this`nextSeq, this`frames, this`gaps, this`lost, this`heartbeats, this`jumps
      ensures var r := HandleBytes(old(State()), kind, seqNo, b);
              ok == r.Some? && State() == (if ok then r.value else old(State()))
    {
      if kind == HEARTBEAT {
        if |b| != 24 { return false; }
        var head := U64At(b, 16);
        heartbeats := heartbeats + 1;
        if head + 1 > nextSeq { nextSeq := head + 1; }
        return true;
      }
      if kind == GAP {
        if |b| != 24 { return false; }
        var from, resumed := U64At(b, 8), U64At(b, 16);
        gaps := gaps + 1;
        lost := lost + resumed - from;
        nextSeq := resumed;
        return true;
      }
      if nextSeq != 0 && seqNo != nextSeq {
        gaps := gaps + 1;
        lost := lost + seqNo - nextSeq;
        jumps := jumps + 1;
      }
      nextSeq := seqNo + 1;
      frames := frames + 1;
      return true;
    }

    /** Takes in a chunk and handles the frames it completes; false if the stream is malformed. */
    method Receive(chunk: Bytes) returns (ok: bool)
      modifies this`buf, this`nextSeq, this`frames, this`gaps, this`lost, this`heartbeats, this`jumps
      ensures Drained(State(), buf, ok) == Drain(old(State()), old(buf) + chunk)
    {
      buf := buf + chunk;
      while |buf| >= HEADER
        invariant Drain(State(), buf) == Drain(old(State()), old(buf) + chunk)
        decreases |buf|
      {
        var h := ReadHeader(buf);
        if |buf| < h.len { break; }
        if h.len == 0 { return false; }
        ok := HandleFrame(h.kind, h.seqNo, buf[..h.len]);
        if !ok { return false; }
        buf := buf[h.len..];
      }
      return true;
    }
  }
}
