/**
 The order port: the incremental frame parser of a client session.

 `Parse` is the meaning of a buffer of received bytes. The Session class runs the parsing loop and
 is proved to compute it; `Parse` is then shown not to depend on how the bytes were chunked.
 */
module OrderPort {
  import opened Types
  import opened Wire

  // ---------------------------------------------------------------- messages

  datatype Msg =
    | NewOrder(tag: U64, symbol: U16, side: byte, otype: byte, tif: byte, price: I64, qty: U32)
    | CancelOrder(tag: U64, id: U64)
    | ReplaceOrder(tag: U64, id: U64, price: I64, qty: U32)
  {
    function Kind(): byte {
      match this
      case NewOrder(_, _, _, _, _, _, _) => NEW_ORDER
      case CancelOrder(_, _) => CANCEL_ORDER
      case ReplaceOrder(_, _, _, _) => REPLACE_ORDER
    }
  }

  /** What a complete frame asks for: a command, or a BadMessage reject echoing a tag. */
  datatype Request = Good(c: Command) | Bad(tag: U64)

  function Meaning(m: Msg, sid: U32): Request {
    match m
    case NewOrder(tag, symbol, side, otype, tif, price, qty) =>
      if side <= 1 && otype <= 1 && tif <= 1 then
        Good(New(sid, tag, symbol, if side == 0 then Buy else Sell, if otype == 0 then Limit else Market,
                  if tif == 0 then GTC else IOC, price, qty))
      else Bad(tag)
    case CancelOrder(tag, id) => Good(Cancel(sid, tag, id))
    case ReplaceOrder(tag, id, price, qty) => Good(Replace(sid, tag, id, price, qty))
  }

  function Body(m: Msg): (b: Bytes)
    ensures |b| == SizeFor(m.Kind()) - HEADER
  {
    match m
    case NewOrder(tag, symbol, side, otype, tif, price, qty) =>
      LE(tag, 8) + (LE(symbol, 2) + ([side, otype, tif, 0, 0, 0] + (LE(ToU64(price), 8) + (LE(qty, 4) + LE(0, 4)))))
    case CancelOrder(tag, id) => LE(tag, 8) + (LE(id, 8) + [])
    case ReplaceOrder(tag, id, price, qty) =>
      LE(tag, 8) + (LE(id, 8) + (LE(ToU64(price), 8) + (LE(qty, 4) + LE(0, 4))))
  }

  function Encode(m: Msg, seqNo: U32): (b: Bytes)
    ensures |b| == SizeFor(m.Kind())
  {
    EncodeHeader(Header(SizeFor(m.Kind()), m.Kind(), VERSION, seqNo)) + Body(m)
  }

  /** The message in a complete frame, read at its packed offsets; None for a type clients do not send. */
  function ReadMsg(kind: byte, f: Bytes): Option<Msg>
    requires |f| == SizeFor(kind)
  {
    if kind == NEW_ORDER then
      Some(NewOrder(U64At(f, 8), U16At(f, 16), f[18], f[19], f[20], ToI64(U64At(f, 24)), U32At(f, 32)))
    else if kind == CANCEL_ORDER then Some(CancelOrder(U64At(f, 8), U64At(f, 16)))
    else if kind == REPLACE_ORDER then
      Some(ReplaceOrder(U64At(f, 8), U64At(f, 16), ToI64(U64At(f, 24)), U32At(f, 32)))
    else None
  }

  function Decode(kind: byte, f: Bytes, sid: U32): Request
    requires |f| == SizeFor(kind)
  {
    var m := ReadMsg(kind, f);
    if m.Some? then Meaning(m.value, sid) else Bad(0)
  }

  lemma ReadAll(f: Bytes)
    requires |f| >= 24
    ensures U64At(f, 8) == Field(f, 8, 8) && U16At(f, 16) == Field(f, 16, 2) && U64At(f, 16) == Field(f, 16, 8)
    ensures |f| >= 40 ==> U64At(f, 24) == Field(f, 24, 8) && U32At(f, 32) == Field(f, 32, 4)
  {
    ReadsField(f, 8);
    ReadsField(f, 16);
    ReadsField(f, 24);
    ReadsField(f, 32);
  }

  lemma NewRoundTrip(h: Bytes, m: Msg)
    requires |h| == HEADER && m.NewOrder?
    ensures ReadMsg(NEW_ORDER, h + Body(m)) == Some(m)
  {
    Widths();
    var e := LE(m.qty, 4) + LE(0, 4);
    var d := LE(ToU64(m.price), 8) + e;
    var flags: Bytes := [m.side, m.otype, m.tif, 0, 0, 0];
    var c := flags + d;
    var b := LE(m.symbol, 2) + c;
    FieldSkip(h, Body(m), 8, 8);
    FieldHead(m.tag, 8, b);
    FieldSkip(h, Body(m), 16, 2);
    FieldSkip(LE(m.tag, 8), b, 8, 2);
    FieldHead(m.symbol, 2, c);
    FieldSkip(h, Body(m), 24, 8);
    FieldSkip(LE(m.tag, 8), b, 16, 8);
    FieldSkip(LE(m.symbol, 2), c, 8, 8);
    FieldSkip(flags, d, 6, 8);
    FieldHead(ToU64(m.price), 8, e);
    FieldSkip(h, Body(m), 32, 4);
    FieldSkip(LE(m.tag, 8), b, 24, 4);
    FieldSkip(LE(m.symbol, 2), c, 16, 4);
    FieldSkip(flags, d, 14, 4);
    FieldSkip(LE(ToU64(m.price), 8), e, 8, 4);
    FieldHead(m.qty, 4, LE(0, 4));
    assert (h + Body(m))[18..21] == flags[..3];
    SignedRoundTrip(m.price);
    ReadAll(h + Body(m));
  }

  lemma OtherRoundTrip(h: Bytes, m: Msg)
    requires |h| == HEADER && !m.NewOrder?
    ensures ReadMsg(m.Kind(), h + Body(m)) == Some(m)
  {
    Widths();
    var tail := if m.CancelOrder? then [] else LE(ToU64(m.price), 8) + (LE(m.qty, 4) + LE(0, 4));
    var b := LE(m.id, 8) + tail;
    FieldSkip(h, Body(m), 8, 8);
    FieldHead(m.tag, 8, b);
    FieldSkip(h, Body(m), 16, 8);
    FieldSkip(LE(m.tag, 8), b, 8, 8);
    FieldHead(m.id, 8, tail);
    if m.ReplaceOrder? {
      FieldSkip(h, Body(m), 24, 8);
      FieldSkip(LE(m.tag, 8), b, 16, 8);
      FieldSkip(LE(m.id, 8), tail, 8, 8);
      FieldHead(ToU64(m.price), 8, LE(m.qty, 4) + LE(0, 4));
      FieldSkip(h, Body(m), 32, 4);
      FieldSkip(LE(m.tag, 8), b, 24, 4);
      FieldSkip(LE(m.id, 8), tail, 16, 4);
      FieldSkip(LE(ToU64(m.price), 8), LE(m.qty, 4) + LE(0, 4), 8, 4);
      FieldHead(m.qty, 4, LE(0, 4));
      SignedRoundTrip(m.price);
    }
    ReadAll(h + Body(m));
  }

  /** Reading undoes encoding. */
  lemma MsgRoundTrip(m: Msg, seqNo: U32)
    ensures ReadMsg(m.Kind(), Encode(m, seqNo)) == Some(m)
  {
    var h := EncodeHeader(Header(SizeFor(m.Kind()), m.Kind(), VERSION, seqNo));
    if m.NewOrder? { NewRoundTrip(h, m); } else { OtherRoundTrip(h, m); }
  }

  /** How a session reads a header and a complete frame, and the frame sizes it accepts. */
  datatype Codec = Codec(head: Bytes -> Header, size: byte -> nat, dec: (byte, Bytes) -> Request)

  function CodecFor(sid: U32): Codec {
    Codec((b: Bytes) => if |b| == HEADER then ReadHeader(b) else Header(0, 0, 0, 0), SizeFor,
          (kind: byte, f: Bytes) => if |f| == SizeFor(kind) then Decode(kind, f, sid) else Bad(0))
  }

  // ---------------------------------------------------------------- parsing a buffer

  datatype Rej = Rej(tag: U64, reason: Reason)

  /** What the front of a buffer holds. */
  datatype Front = NeedMore | BadFrame | Frame(h: Header)

  function FrontAt(cd: Codec, rx: Bytes, off: nat): Front
    requires off <= |rx|
  {
    if |rx| - off < HEADER then NeedMore
    else
      var h := cd.head(rx[off..off + HEADER]);
      if h.version != VERSION || h.len == 0 || h.len != cd.size(h.kind) then BadFrame
      else if |rx| - off < h.len then NeedMore
      else Frame(h)
  }

  /** Commands submitted, rejects queued, the next sequence expected, the bytes kept, and whether to stay open. */
  datatype Parsed = Parsed(cmds: seq<Command>, rejects: seq<Rej>, due: U32, rest: Bytes, ok: bool)

  /** Sequence numbers are 32 bits wide and wrap. */
  function NextSeq(n: U32): U32 {
    if n + 1 == TWO32 then 0 else n + 1
  }

  function Cons(q: Request, r: Parsed): (r': Parsed)
    ensures r'.ok == r.ok && r'.rest == r.rest && r'.due == r.due
  {
    match q
    case Good(c) => r.(cmds := [c] + r.cmds)
    case Bad(tag) => r.(rejects := [Rej(tag, BadMessage)] + r.rejects)
  }

  /** The meaning of the bytes from `off` on, to a session expecting sequence `due`. */
  function ParseAt(cd: Codec, due: U32, rx: Bytes, off: nat): Parsed
    requires off <= |rx|
    decreases |rx| - off
  {
    match FrontAt(cd, rx, off)
    case NeedMore => Parsed([], [], due, rx[off..], true)
    case BadFrame => Parsed([], [], due, rx[off..], false)
    case Frame(h) =>
      if h.seqNo != due then Parsed([], [Rej(0, BadSeq)], due, rx[off..], false)
      else Cons(cd.dec(h.kind, rx[off..off + h.len]), ParseAt(cd, NextSeq(due), rx, off + h.len))
  }

  function Parse(cd: Codec, due: U32, rx: Bytes): Parsed {
    ParseAt(cd, due, rx, 0)
  }

  /** The outcome of `a` followed by the outcome of `b`. */
  function Join(a: Parsed, b: Parsed): Parsed {
    Parsed(a.cmds + b.cmds, a.rejects + b.rejects, b.due, b.rest, b.ok)
  }

  predicate SameOutcome(a: Parsed, b: Parsed) {
    a.cmds == b.cmds && a.rejects == b.rejects && a.due == b.due && a.ok == b.ok
  }

  // ---------------------------------------------------------------- chunking

  lemma FrontGrows(cd: Codec, a: Bytes, b: Bytes, off: nat)
    requires off <= |a| && !FrontAt(cd, a, off).NeedMore?
    ensures FrontAt(cd, a + b, off) == FrontAt(cd, a, off)
  {
    if |a| - off >= HEADER { assert (a + b)[off..off + HEADER] == a[off..off + HEADER]; }
  }

  lemma FrontShift(cd: Codec, x: Bytes, rx: Bytes, off: nat)
    requires off <= |rx|
    ensures FrontAt(cd, x + rx, |x| + off) == FrontAt(cd, rx, off)
  {
    if |rx| - off >= HEADER { assert (x + rx)[|x| + off..|x| + off + HEADER] == rx[off..off + HEADER]; }
  }

  /** Bytes already consumed do not matter. */
  lemma {:induction false} ParseShift(cd: Codec, due: U32, x: Bytes, rx: Bytes, off: nat)
    requires off <= |rx|
    ensures ParseAt(cd, due, x + rx, |x| + off) == ParseAt(cd, due, rx, off)
    decreases |rx| - off
  {
    FrontShift(cd, x, rx, off);
    var f := FrontAt(cd, rx, off);
    assert (x + rx)[|x| + off..] == rx[off..];
    if f.Frame? && f.h.seqNo == due {
      assert (x + rx)[|x| + off..|x| + off + f.h.len] == rx[off..off + f.h.len];
      ParseShift(cd, NextSeq(due), x, rx, off + f.h.len);
    }
  }

  lemma JoinCons(q: Request, a: Parsed, b: Parsed)
    ensures Join(Cons(q, a), b) == Cons(q, Join(a, b))
  {
  }

  /** `all` is the outcome of the bytes behind `r` followed by `b`; a close decision is final. */
  ghost predicate Continues(cd: Codec, all: Parsed, r: Parsed, b: Bytes) {
    if r.ok then all == Join(r, Parse(cd, r.due, r.rest + b)) else SameOutcome(all, r)
  }

  lemma ContinuesCons(cd: Codec, q: Request, all: Parsed, r: Parsed, b: Bytes)
    requires Continues(cd, all, r, b)
    ensures Continues(cd, Cons(q, all), Cons(q, r), b)
  {
    JoinCons(q, r, Parse(cd, r.due, r.rest + b));
  }

  lemma ContinuesWaiting(cd: Codec, due: U32, a: Bytes, b: Bytes, off: nat)
    requires off <= |a| && FrontAt(cd, a, off).NeedMore?
    ensures Continues(cd, ParseAt(cd, due, a + b, off), ParseAt(cd, due, a, off), b)
  {
    assert a + b == a[..off] + (a[off..] + b);
    ParseShift(cd, due, a[..off], a[off..] + b, 0);
  }

  /** A complete frame is consumed the same way whatever follows the buffer. */
  lemma FrameConsumed(cd: Codec, due: U32, a: Bytes, b: Bytes, off: nat)
    requires off <= |a| && FrontAt(cd, a, off).Frame? && FrontAt(cd, a, off).h.seqNo == due
    ensures var h := FrontAt(cd, a, off).h;
            ParseAt(cd, due, a + b, off)
            == Cons(cd.dec(h.kind, a[off..off + h.len]), ParseAt(cd, NextSeq(due), a + b, off + h.len))
  {
    FrontGrows(cd, a, b, off);
    var n := FrontAt(cd, a, off).h.len;
    assert (a + b)[off..off + n] == a[off..off + n];
  }

  /** Parsing more bytes later is parsing them all at once. */
  lemma {:induction false} ParseConcat(cd: Codec, due: U32, a: Bytes, b: Bytes, off: nat)
    requires off <= |a|
    ensures Continues(cd, ParseAt(cd, due, a + b, off), ParseAt(cd, due, a, off), b)
    decreases |a| - off
  {
    var f := FrontAt(cd, a, off);
    if f.NeedMore? {
      ContinuesWaiting(cd, due, a, b, off);
    } else if f.Frame? && f.h.seqNo == due {
      var n := off + f.h.len;
      ParseConcat(cd, NextSeq(due), a, b, n);
      FrameConsumed(cd, due, a, b, off);
      ContinuesCons(cd, cd.dec(f.h.kind, a[off..n]), ParseAt(cd, NextSeq(due), a + b, n), ParseAt(cd, NextSeq(due), a, n), b);
    } else {
      FrontGrows(cd, a, b, off);
    }
  }

  function Flatten(chunks: seq<Bytes>): Bytes {
    if chunks == [] then [] else chunks[0] + Flatten(chunks[1..])
  }

  /** A session reading `chunks` one at a time, starting with `rx` left over, until it closes. */
  function Feed(cd: Codec, due: U32, rx: Bytes, chunks: seq<Bytes>): Parsed
    decreases |chunks|
  {
    if chunks == [] then Parsed([], [], due, rx, true)
    else
      var r := Parse(cd, due, rx + chunks[0]);
      if !r.ok then r else Join(r, Feed(cd, r.due, r.rest, chunks[1..]))
  }

  /**
   Whatever the reads were, the commands submitted, the rejects queued, the expected sequence and
   the close decision are those of parsing the whole stream at once.
   */
  lemma {:induction false} ChunkingIsInvisible(cd: Codec, due: U32, rx: Bytes, chunks: seq<Bytes>)
    requires FrontAt(cd, rx, 0).NeedMore?
    ensures SameOutcome(Feed(cd, due, rx, chunks), Parse(cd, due, rx + Flatten(chunks)))
    ensures var r := Feed(cd, due, rx, chunks); r.ok ==> r == Parse(cd, due, rx + Flatten(chunks))
    decreases |chunks|
  {
    if chunks == [] {
      assert rx + Flatten(chunks) == rx;
    } else {
      var r := Parse(cd, due, rx + chunks[0]);
      Assoc(rx, chunks[0], Flatten(chunks[1..]));
      ParseConcat(cd, due, rx + chunks[0], Flatten(chunks[1..]), 0);
      if r.ok {
        RestIsDone(cd, due, rx + chunks[0], 0);
        ChunkingIsInvisible(cd, r.due, r.rest, chunks[1..]);
      }
    }
  }

  /** A buffer that has been parsed holds no further complete frame. */
  lemma {:induction false} RestIsDone(cd: Codec, due: U32, rx: Bytes, off: nat)
    requires off <= |rx| && ParseAt(cd, due, rx, off).ok
    ensures FrontAt(cd, ParseAt(cd, due, rx, off).rest, 0).NeedMore?
    decreases |rx| - off
  {
    var f := FrontAt(cd, rx, off);
    if f.Frame? {
      RestIsDone(cd, NextSeq(due), rx, off + f.h.len);
    } else {
      assert rx == rx[..off] + rx[off..];
      FrontShift(cd, rx[..off], rx[off..], 0);
    }
  }

  // ---------------------------------------------------------------- end of file

  /** The bytes one read takes at most. Reading goes on to end of file only after reads of this size. */
  const READ_SIZE := 65536

  /**
   A session still open after `chunks` meets end of file in the call that read `last`: it closes, and leaves
   `last` unparsed.
   */
  function FeedToEnd(cd: Codec, due: U32, rx: Bytes, chunks: seq<Bytes>, last: Bytes): Parsed {
    var r := Feed(cd, due, rx, chunks);
    if r.ok then Parsed(r.cmds, r.rejects, r.due, r.rest + last, false) else r
  }

  /** Nothing comes of a buffer exactly when no complete frame stands at its front. */
  lemma YieldsIff(cd: Codec, due: U32, rx: Bytes)
    ensures var r := Parse(cd, due, rx);
            (r.cmds == [] && r.rejects == []) <==> !FrontAt(cd, rx, 0).Frame?
  {
  }

  predicate SameWork(a: Parsed, b: Parsed) {
    a.cmds == b.cmds && a.rejects == b.rejects && a.due == b.due
  }

  /**
   The session that meets end of file has done what the whole stream asks for, exactly when what it
   had left over and read last holds no complete frame.
   */
  lemma EndLosesNothingIff(cd: Codec, due: U32, rx: Bytes, chunks: seq<Bytes>, last: Bytes)
    requires FrontAt(cd, rx, 0).NeedMore?
    ensures var r := Feed(cd, due, rx, chunks);
            SameWork(FeedToEnd(cd, due, rx, chunks, last), Parse(cd, due, rx + Flatten(chunks) + last))
            <==> !r.ok || !FrontAt(cd, r.rest + last, 0).Frame?
  {
    var r := Feed(cd, due, rx, chunks);
    ChunkingIsInvisible(cd, due, rx, chunks);
    ParseConcat(cd, due, rx + Flatten(chunks), last, 0);
    YieldsIff(cd, r.due, r.rest + last);
  }

  // ---------------------------------------------------------------- round trip

  function Advance(n: U32, k: nat): U32
    decreases k
  {
    if k == 0 then n else Advance(NextSeq(n), k - 1)
  }

  /** Sequence numbers go up by one. */
  lemma {:induction false} AdvanceIs(n: U32, k: nat)
    ensures Advance(n, k) == (n + k) % TWO32
    decreases k
  {
    if k > 0 { AdvanceIs(NextSeq(n), k - 1); }
  }

  lemma FrontEncoded(sid: U32, n: U32, m: Msg, rest: Bytes)
    ensures FrontAt(CodecFor(sid), Encode(m, n) + rest, 0) == Frame(Header(SizeFor(m.Kind()), m.Kind(), VERSION, n))
  {
    var h := Header(SizeFor(m.Kind()), m.Kind(), VERSION, n);
    HeaderRoundTrip(h, []);
    assert EncodeHeader(h) + [] == EncodeHeader(h);
    assert (Encode(m, n) + rest)[0..HEADER] == EncodeHeader(h);
  }

  lemma ParseEncoded(sid: U32, n: U32, m: Msg, rest: Bytes)
    ensures Parse(CodecFor(sid), n, Encode(m, n) + rest) == Cons(Meaning(m, sid), Parse(CodecFor(sid), NextSeq(n), rest))
  {
    var f := Encode(m, n);
    FrontEncoded(sid, n, m, rest);
    assert (f + rest)[0..SizeFor(m.Kind())] == f;
    assert CodecFor(sid).dec(m.Kind(), f) == Meaning(m, sid) by { MsgRoundTrip(m, n); }
    ParseShift(CodecFor(sid), NextSeq(n), f, rest, 0);
  }

  /** A full read with a message at its front, then end of file: the message is lost. */
  lemma LostAtEnd(sid: U32, n: U32, m: Msg, rest: Bytes)
    requires |Encode(m, n) + rest| == READ_SIZE
    ensures !SameWork(FeedToEnd(CodecFor(sid), n, [], [], Encode(m, n) + rest), Parse(CodecFor(sid), n, Encode(m, n) + rest))
  {
    var last := Encode(m, n) + rest;
    EndLosesNothingIff(CodecFor(sid), n, [], [], last);
    FrontEncoded(sid, n, m, rest);
    assert [] + Flatten([]) + last == last && [] + last == last;
  }

  // ---------------------------------------------------------------- the session

  /** A reject queued on the connection under its outgoing sequence number. */
  datatype Sent = Sent(seqNo: U32, r: Rej)

  function Stamped(n: U32, rs: seq<Rej>): seq<Sent>
    decreases |rs|
  {
    if rs == [] then [] else [Sent(n, rs[0])] + Stamped(NextSeq(n), rs[1..])
  }

  lemma {:induction false} StampedIs(n: U32, rs: seq<Rej>)
    ensures |Stamped(n, rs)| == |rs| && forall k: nat | k < |rs| :: Stamped(n, rs)[k] == Sent((n + k) % TWO32, rs[k])
    decreases |rs|
  {
    if rs != [] {
      StampedIs(NextSeq(n), rs[1..]);
      forall k: nat | 1 <= k < |rs| ensures Stamped(n, rs)[k] == Sent((n + k) % TWO32, rs[k]) {
        assert (NextSeq(n) + (k - 1)) % TWO32 == (n + k) % TWO32;
      }
    }
  }

  /** What a session has put out, and the two sequence numbers it keeps. */
  datatype Out = Out(cmds: seq<Command>, tx: seq<Sent>, due: U32, outSeq: U32)

  function Apply(o: Out, r: Parsed): Out {
    Out(o.cmds + r.cmds, o.tx + Stamped(o.outSeq, r.rejects), r.due, Advance(o.outSeq, |r.rejects|))
  }

  function ApplyOne(o: Out, q: Request): Out {
    match q
    case Good(c) => o.(cmds := o.cmds + [c], due := NextSeq(o.due))
    case Bad(tag) => o.(tx := o.tx + [Sent(o.outSeq, Rej(tag, BadMessage))], due := NextSeq(o.due), outSeq := NextSeq(o.outSeq))
  }

  lemma ApplyCons(o: Out, q: Request, r: Parsed)
    ensures Apply(o, Cons(q, r)) == Apply(ApplyOne(o, q), r)
  {
    if q.Bad? {
      var rs := [Rej(q.tag, BadMessage)] + r.rejects;
      assert rs[1..] == r.rejects;
      assert Stamped(o.outSeq, rs) == [Sent(o.outSeq, rs[0])] + Stamped(NextSeq(o.outSeq), r.rejects);
      Assoc(o.tx, [Sent(o.outSeq, rs[0])], Stamped(NextSeq(o.outSeq), r.rejects));
    } else {
      Assoc(o.cmds, [q.c], r.cmds);
    }
  }

  lemma ApplyNone(o: Out, rx: Bytes, ok: bool)
    ensures Apply(o, Parsed([], [], o.due, rx, ok)) == o
  {
  }

  lemma ApplyBadSeq(o: Out, rx: Bytes)
    ensures Apply(o, Parsed([], [Rej(0, BadSeq)], o.due, rx, false))
         == o.(tx := o.tx + [Sent(o.outSeq, Rej(0, BadSeq))], outSeq := NextSeq(o.outSeq))
  {
    assert [Rej(0, BadSeq)][1..] == [];
    assert Stamped(o.outSeq, [Rej(0, BadSeq)]) == [Sent(o.outSeq, Rej(0, BadSeq))];
    assert Advance(o.outSeq, 1) == Advance(NextSeq(o.outSeq), 0);
  }

  /** Putting out `r` after `o` ends where putting out `all` after `o0` does. */
  ghost predicate SameEnd(o0: Out, all: Parsed, o: Out, r: Parsed) {
    Apply(o0, all) == Apply(o, r) && all.ok == r.ok && all.rest == r.rest
  }

  /** The output `o0` and the buffer parsed whole come to the same as `o` and the buffer from `off` on. */
  ghost predicate OnTrack(cd: Codec, o0: Out, rx: Bytes, o: Out, off: nat) {
    off <= |rx| && SameEnd(o0, Parse(cd, o0.due, rx), o, ParseAt(cd, o.due, rx, off))
  }

  lemma SameEndCons(o0: Out, all: Parsed, o: Out, q: Request, r: Parsed)
    requires SameEnd(o0, all, o, Cons(q, r))
    ensures SameEnd(o0, all, ApplyOne(o, q), r)
  {
    ApplyCons(o, q, r);
  }

  lemma TrackFrame(cd: Codec, o0: Out, rx: Bytes, o: Out, off: nat)
    requires OnTrack(cd, o0, rx, o, off) && FrontAt(cd, rx, off).Frame? && FrontAt(cd, rx, off).h.seqNo == o.due
    ensures var h := FrontAt(cd, rx, off).h;
            OnTrack(cd, o0, rx, ApplyOne(o, cd.dec(h.kind, rx[off..off + h.len])), off + h.len)
  {
    var h := FrontAt(cd, rx, off).h;
    SameEndCons(o0, Parse(cd, o0.due, rx), o, cd.dec(h.kind, rx[off..off + h.len]), ParseAt(cd, NextSeq(o.due), rx, off + h.len));
  }

  lemma TrackStop(cd: Codec, o0: Out, rx: Bytes, o: Out, off: nat)
    requires OnTrack(cd, o0, rx, o, off) && !FrontAt(cd, rx, off).Frame?
    ensures var all := Parse(cd, o0.due, rx);
            Apply(o0, all) == o && all.ok == FrontAt(cd, rx, off).NeedMore? && all.rest == rx[off..]
  {
    ApplyNone(o, rx[off..], FrontAt(cd, rx, off).NeedMore?);
  }

  lemma TrackBadSeq(cd: Codec, o0: Out, rx: Bytes, o: Out, off: nat)
    requires OnTrack(cd, o0, rx, o, off) && FrontAt(cd, rx, off).Frame? && FrontAt(cd, rx, off).h.seqNo != o.due
    ensures var all := Parse(cd, o0.due, rx);
            !all.ok && Apply(o0, all) == o.(tx := o.tx + [Sent(o.outSeq, Rej(0, BadSeq))], outSeq := NextSeq(o.outSeq))
  {
    ApplyBadSeq(o, rx[off..]);
  }

  /** A turn of the parsing loop: wait for more bytes, close the session, or go on from an offset. */
  datatype Turn = Wait | Close | Next(off: nat)

  class Session {
    const id: U32
    var rx: Bytes
    var tx: seq<Sent>
    var expectSeq: U32
    var outSeq: U32
    var submitted: seq<Command>  // what went to the engine's ring

    constructor (id: U32)
      ensures this.id == id && rx == [] && tx == [] && expectSeq == 1 && outSeq == 1 && submitted == []
    {
      this.id := id;
      rx, tx, expectSeq, outSeq, submitted := [], [], 1, 1, [];
    }

    ghost function Output(): Out
      reads this
    {
      Out(submitted, tx, expectSeq, outSeq)
    }

    /** Queues a reject under the next outgoing sequence number. */
    method Send(r: Rej)
      modifies this`tx, this`outSeq
      ensures Output() == old(Output()).(tx := old(tx) + [Sent(old(outSeq), r)], outSeq := NextSeq(old(outSeq)))
    {
      tx := tx + [Sent(outSeq, r)];
      outSeq := NextSeq(outSeq);
    }

    /** Acts on one complete frame: a command to the engine, or a reject to the client. */
    method Take(kind: byte, f: Bytes)
      requires |f| == SizeFor(kind)
      modifies this`tx, this`outSeq, this`submitted, this`expectSeq
      ensures Output() == ApplyOne(old(Output()), CodecFor(id).dec(kind, f))
    {
      expectSeq := NextSeq(expectSeq);
      match Decode(kind, f, id)
      case Bad(tag) => Send(Rej(tag, BadMessage));
      case Good(c) => submitted := submitted + [c];
    }

    /** The length checks on the frame at `off`. */
    method Check(off: nat) returns (f: Front)
      requires off <= |rx|
      ensures f == FrontAt(CodecFor(id), rx, off)
      ensures f.Frame? ==> off < off + f.h.len <= |rx| && f.h.len == SizeFor(f.h.kind)
    {
      if |rx| - off < HEADER { return NeedMore; }
      var h := ReadHeader(rx[off..off + HEADER]);
      if h.version != VERSION || h.len == 0 || h.len != SizeFor(h.kind) { return BadFrame; }
      if |rx| - off < h.len { return NeedMore; }
      return Frame(h);
    }

    /** Takes the complete frame at `off` if it is in sequence; otherwise rejects it, to close. */
    method Accept(off: nat, h: Header, ghost o0: Out) returns (turn: Turn)
      requires OnTrack(CodecFor(id), o0, rx, Output(), off) && FrontAt(CodecFor(id), rx, off) == Frame(h)
      requires off < off + h.len <= |rx| && h.len == SizeFor(h.kind)
      modifies this`tx, this`outSeq, this`submitted, this`expectSeq
      ensures match turn
              case Wait => false
              case Close => var all := Parse(CodecFor(id), o0.due, rx); Output() == Apply(o0, all) && !all.ok
              case Next(n) => n == off + h.len && OnTrack(CodecFor(id), o0, rx, Output(), n)
    {
      if h.seqNo != expectSeq {
        TrackBadSeq(CodecFor(id), o0, rx, Output(), off);
        Send(Rej(0, BadSeq));
        return Close;
      }
      TrackFrame(CodecFor(id), o0, rx, Output(), off);
      Take(h.kind, rx[off..off + h.len]);
      return Next(off + h.len);
    }

    /** One turn of the loop: consumes the frame at `off`, or says why it cannot. */
    method TakeFrame(off: nat, ghost o0: Out) returns (turn: Turn)
      requires OnTrack(CodecFor(id), o0, rx, Output(), off)
      modifies this`tx, this`outSeq, this`submitted, this`expectSeq
      ensures var (cd, all) := (CodecFor(id), Parse(CodecFor(id), o0.due, rx));
              match turn
              case Wait => Output() == Apply(o0, all) && all.ok && all.rest == rx[off..]
              case Close => Output() == Apply(o0, all) && !all.ok
              case Next(n) => off < n <= |rx| && OnTrack(cd, o0, rx, Output(), n)
    {
      var f := Check(off);
      if f.Frame? {
        turn := Accept(off, f.h, o0);
      } else {
        TrackStop(CodecFor(id), o0, rx, Output(), off);
        turn := if f.NeedMore? then Wait else Close;
      }
    }

    /** Consumes the complete frames of `rx`; false means close the session. */
    method ParseFrames() returns (ok: bool)
      modifies this
      ensures var r := Parse(CodecFor(id), old(expectSeq), old(rx));
              ok == r.ok && Output() == Apply(old(Output()), r) && (ok ==> rx == r.rest)
    {
      var off := 0;
      while true
        invariant rx == old(rx) && OnTrack(CodecFor(id), old(Output()), rx, Output(), off)
        decreases |rx| - off
      {
        var turn := TakeFrame(off, old(Output()));
        match turn
        case Wait => break;
        case Close => return false;
        case Next(n) => off := n;
      }
      rx := rx[off..];
      return true;
    }
  }
}
