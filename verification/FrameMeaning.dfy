/**
 What the bytes of a client session ask for, field by field: every buffer is parsed to what its frames say, and the
 encoding of any commands parses back to them.
 */
module FrameMeaning {
  import opened Types
  import opened Wire
  import opened OrderPort

  // ---------------------------------------------------------------- what a buffer says

  /** What the fields of a complete frame ask for, on session `sid`. */
  predicate Says(f: Bytes, sid: U32, q: Request)
    requires |f| >= HEADER && |f| == SizeFor(f[2])
  {
    match f[2]
    case 1 =>
      if f[18] <= 1 && f[19] <= 1 && f[20] <= 1 then q.Good? && SaysNew(f, sid, q.c)
      else q.Bad? && q.tag == Field(f, 8, 8)
    case 2 => q.Good? && SaysCancel(f, sid, q.c)
    case 3 => q.Good? && SaysReplace(f, sid, q.c)
    case _ => q == Bad(0)
  }

  predicate SaysNew(f: Bytes, sid: U32, c: Command)
    requires |f| == 40
  {
    && c.New? && c.session == sid && c.tag == Field(f, 8, 8) && c.symbol == Field(f, 16, 2)
    && (c.side == Buy <==> f[18] == 0) && (c.otype == Limit <==> f[19] == 0) && (c.tif == GTC <==> f[20] == 0)
    && c.price % TWO64 == Field(f, 24, 8) && c.qty == Field(f, 32, 4)
  }

  predicate SaysCancel(f: Bytes, sid: U32, c: Command)
    requires |f| == 24
  {
    c.Cancel? && c.session == sid && c.tag == Field(f, 8, 8) && c.id == Field(f, 16, 8)
  }

  predicate SaysReplace(f: Bytes, sid: U32, c: Command)
    requires |f| == 40
  {
    && c.Replace? && c.session == sid && c.tag == Field(f, 8, 8) && c.id == Field(f, 16, 8)
    && c.price % TWO64 == Field(f, 24, 8) && c.qty == Field(f, 32, 4)
  }

  /** Every complete frame is decoded to what its fields say. */
  lemma DecodeSays(f: Bytes, sid: U32)
    requires |f| >= HEADER && |f| == SizeFor(f[2])
    ensures Says(f, sid, Decode(f[2], f, sid))
  {
    if 1 <= f[2] <= 3 { ReadAll(f); }
  }

  /** A header that names a known type at its size. */
  predicate GoodHeader(b: Bytes)
    requires |b| >= HEADER
  {
    b[3] == VERSION && Field(b, 0, 2) == SizeFor(b[2]) > 0
  }

  /** A complete frame numbered `n`. */
  predicate IsFrame(f: Bytes, n: int) {
    |f| >= HEADER && GoodHeader(f) && Field(f, 0, 2) == |f| && Field(f, 4, 4) == n
  }

  /** The start of a frame, and no more. */
  predicate Partial(b: Bytes) {
    |b| < HEADER || (GoodHeader(b) && |b| < Field(b, 0, 2))
  }

  /** A complete frame that is not numbered `n`. */
  predicate OutOfOrder(b: Bytes, n: int) {
    |b| >= HEADER && GoodHeader(b) && |b| >= Field(b, 0, 2) && Field(b, 4, 4) != n
  }

  function Goods(qs: seq<Request>): seq<Command> {
    if qs == [] then [] else (if qs[0].Good? then [qs[0].c] else []) + Goods(qs[1..])
  }

  function Bads(qs: seq<Request>): seq<Rej> {
    if qs == [] then [] else (if qs[0].Bad? then [Rej(qs[0].tag, BadMessage)] else []) + Bads(qs[1..])
  }

  /** The frames are complete, are numbered from `due` on, and say what is asked. */
  ghost predicate Numbered(sid: U32, due: U32, fs: seq<Bytes>, qs: seq<Request>) {
    |fs| == |qs| && forall k: nat | k < |fs| :: IsFrame(fs[k], Advance(due, k)) && Says(fs[k], sid, qs[k])
  }

  /**
   The outcome `r` of buffer `rx`: frames in sequence and a rest. The commands and rejects are those the frames ask
   for, in order. The session stays open exactly if the rest is the start of a frame; a complete frame out of order
   is rejected with BadSeq.
   */
  ghost predicate Means(sid: U32, due: U32, rx: Bytes, r: Parsed, fs: seq<Bytes>, qs: seq<Request>) {
    var next := Advance(due, |fs|);
    && rx == Flatten(fs) + r.rest && Numbered(sid, due, fs, qs)
    && r.cmds == Goods(qs)
    && r.rejects == Bads(qs) + (if OutOfOrder(r.rest, next) then [Rej(0, BadSeq)] else [])
    && r.due == next && (r.ok <==> Partial(r.rest)) && !IsFrame(r.rest, next)
    && (OutOfOrder(r.rest, next) || Partial(r.rest) || !GoodHeader(r.rest))
  }

  lemma HeaderAt(sid: U32, rx: Bytes)
    ensures var f := FrontAt(CodecFor(sid), rx, 0);
            && (f.NeedMore? <==> Partial(rx)) && (f.BadFrame? <==> |rx| >= HEADER && !GoodHeader(rx))
            && (f.Frame? ==> f.h.len == Field(rx, 0, 2) && f.h.kind == rx[2] && f.h.seqNo == Field(rx, 4, 4))
            && (f.Frame? ==> HEADER <= f.h.len <= |rx|)
  {
    if |rx| >= HEADER {
      HeaderLayout(rx[0..HEADER]);
      assert rx[0..HEADER][0..2] == rx[0..2] && rx[0..HEADER][4..8] == rx[4..8];
    }
  }

  lemma NumberedCons(sid: U32, due: U32, f: Bytes, q: Request, fs: seq<Bytes>, qs: seq<Request>)
    requires IsFrame(f, due) && Says(f, sid, q) && Numbered(sid, NextSeq(due), fs, qs)
    ensures Numbered(sid, due, [f] + fs, [q] + qs)
  {
    var (fs', qs') := ([f] + fs, [q] + qs);
    forall k: nat | k < |fs'| ensures IsFrame(fs'[k], Advance(due, k)) && Says(fs'[k], sid, qs'[k]) {
      if k > 0 {
        assert fs'[k] == fs[k - 1] && qs'[k] == qs[k - 1];
      }
    }
  }

  lemma AsksCons(q: Request, r: Parsed, qs: seq<Request>, more: seq<Rej>)
    requires r.cmds == Goods(qs) && r.rejects == Bads(qs) + more
    ensures Cons(q, r).cmds == Goods([q] + qs) && Cons(q, r).rejects == Bads([q] + qs) + more
  {
    assert ([q] + qs)[1..] == qs;
  }

  lemma MeansCons(sid: U32, due: U32, f: Bytes, q: Request, rx: Bytes, r: Parsed, fs: seq<Bytes>, qs: seq<Request>)
    requires IsFrame(f, due) && Says(f, sid, q) && Means(sid, NextSeq(due), rx, r, fs, qs)
    ensures Means(sid, due, f + rx, Cons(q, r), [f] + fs, [q] + qs)
  {
    NumberedCons(sid, due, f, q, fs, qs);
    var next := Advance(NextSeq(due), |fs|);
    AsksCons(q, r, qs, if OutOfOrder(r.rest, next) then [Rej(0, BadSeq)] else []);
    assert ([f] + fs)[1..] == fs;
    Assoc(f, Flatten(fs), r.rest);
  }

  /** The first frame of a buffer, in sequence. */
  lemma FirstFrame(sid: U32, due: U32, rx: Bytes, n: nat)
    requires HEADER <= n <= |rx| && FrontAt(CodecFor(sid), rx, 0).Frame?
    requires FrontAt(CodecFor(sid), rx, 0).h.len == n && FrontAt(CodecFor(sid), rx, 0).h.seqNo == due
    ensures IsFrame(rx[..n], due) && Says(rx[..n], sid, Decode(rx[2], rx[..n], sid))
    ensures var cd := CodecFor(sid); Parse(cd, due, rx) == Cons(Decode(rx[2], rx[..n], sid), Parse(cd, NextSeq(due), rx[n..]))
  {
    HeaderAt(sid, rx);
    var f := rx[..n];
    assert rx == f + rx[n..] && f[2] == rx[2] && f[0..2] == rx[0..2] && f[4..8] == rx[4..8] && rx[0..n] == f;
    DecodeSays(f, sid);
    ParseShift(CodecFor(sid), NextSeq(due), f, rx[n..], 0);
  }

  /** Parsing stops at a buffer that does not start with a frame in sequence. */
  lemma ParseStops(cd: Codec, due: U32, rx: Bytes)
    requires var f := FrontAt(cd, rx, 0); f.Frame? ==> f.h.seqNo != due
    ensures var f := FrontAt(cd, rx, 0);
            Parse(cd, due, rx) == Parsed([], if f.Frame? then [Rej(0, BadSeq)] else [], due, rx, f.NeedMore?)
  {
    assert rx[0..] == rx;
  }

  lemma MeansNothing(sid: U32, due: U32, rx: Bytes, r: Parsed)
    requires !IsFrame(rx, due)
    requires r == Parsed([], if OutOfOrder(rx, due) then [Rej(0, BadSeq)] else [], due, rx, Partial(rx))
    requires OutOfOrder(rx, due) || Partial(rx) || !GoodHeader(rx)
    ensures Means(sid, due, rx, r, [], [])
  {
    assert Flatten([]) + rx == rx;
  }

  lemma MeansNone(sid: U32, due: U32, rx: Bytes)
    requires var f := FrontAt(CodecFor(sid), rx, 0); f.Frame? ==> f.h.seqNo != due
    ensures Means(sid, due, rx, Parse(CodecFor(sid), due, rx), [], [])
  {
    HeaderAt(sid, rx);
    ParseStops(CodecFor(sid), due, rx);
    MeansNothing(sid, due, rx, Parse(CodecFor(sid), due, rx));
  }

  /** The meaning of the rest of a buffer gives the meaning of all of it. */
  lemma MeansFirst(sid: U32, due: U32, rx: Bytes, n: nat, fs: seq<Bytes>, qs: seq<Request>)
    requires HEADER <= n <= |rx| && FrontAt(CodecFor(sid), rx, 0).Frame?
    requires FrontAt(CodecFor(sid), rx, 0).h.len == n && FrontAt(CodecFor(sid), rx, 0).h.seqNo == due
    requires Means(sid, NextSeq(due), rx[n..], Parse(CodecFor(sid), NextSeq(due), rx[n..]), fs, qs)
    ensures |rx[..n]| == SizeFor(rx[2])
    ensures Means(sid, due, rx, Parse(CodecFor(sid), due, rx), [rx[..n]] + fs, [Decode(rx[2], rx[..n], sid)] + qs)
  {
    FirstFrame(sid, due, rx, n);
    MeansCons(sid, due, rx[..n], Decode(rx[2], rx[..n], sid), rx[n..], Parse(CodecFor(sid), NextSeq(due), rx[n..]), fs, qs);
    assert rx[..n] + rx[n..] == rx;
  }

  /** Every buffer means what its bytes say. */
  lemma {:induction false} ParseMeans(sid: U32, due: U32, rx: Bytes) returns (fs: seq<Bytes>, qs: seq<Request>)
    ensures Means(sid, due, rx, Parse(CodecFor(sid), due, rx), fs, qs)
    decreases |rx|
  {
    var front := FrontAt(CodecFor(sid), rx, 0);
    if front.Frame? && front.h.seqNo == due {
      HeaderAt(sid, rx);
      var n := front.h.len;
      fs, qs := ParseMeans(sid, NextSeq(due), rx[n..]);
      MeansFirst(sid, due, rx, n, fs, qs);
      fs, qs := [rx[..n]] + fs, [Decode(rx[2], rx[..n], sid)] + qs;
    } else {
      fs, qs := [], [];
      MeansNone(sid, due, rx);
    }
  }

  // ---------------------------------------------------------------- round trip

  /** The message that asks for a command: Buy, Limit and GTC are 0 on the wire. */
  function MsgOf(c: Command): Msg {
    match c
    case New(_, tag, symbol, side, otype, tif, price, qty) =>
      NewOrder(tag, symbol, if side.Sell? then 1 else 0, if otype.Market? then 1 else 0, if tif.IOC? then 1 else 0, price, qty)
    case Cancel(_, tag, id) => CancelOrder(tag, id)
    case Replace(_, tag, id, price, qty) => ReplaceOrder(tag, id, price, qty)
  }

  function EncodeAll(n: U32, cs: seq<Command>): Bytes
    decreases |cs|
  {
    if cs == [] then [] else Encode(MsgOf(cs[0]), n) + EncodeAll(NextSeq(n), cs[1..])
  }

  /** A command is what its message means. */
  lemma MeaningOf(c: Command)
    ensures Meaning(MsgOf(c), c.session) == Good(c)
  {
  }

  /** The buffer was parsed to these commands, with nothing refused and nothing left. */
  predicate JustCommands(r: Parsed, cs: seq<Command>) {
    r.cmds == cs && r.rejects == [] && r.rest == [] && r.ok
  }

  lemma JustCommandsCons(c: Command, r: Parsed, cs: seq<Command>)
    requires JustCommands(r, cs)
    ensures JustCommands(Cons(Good(c), r), [c] + cs) && Cons(Good(c), r).due == r.due
  {
  }

  /** Parsing the encodings of a session's commands, numbered in order, yields exactly those commands. */
  lemma {:induction false} ParseInvertsEncoding(sid: U32, n: U32, cs: seq<Command>)
    requires forall c | c in cs :: c.session == sid
    ensures var r := Parse(CodecFor(sid), n, EncodeAll(n, cs)); JustCommands(r, cs) && r.due == Advance(n, |cs|)
    decreases |cs|
  {
    if cs != [] {
      var c, rest := cs[0], EncodeAll(NextSeq(n), cs[1..]);
      assert c in cs && cs == [c] + cs[1..];
      ParseInvertsEncoding(sid, NextSeq(n), cs[1..]);
      MeaningOf(c);
      ParseEncoded(sid, n, MsgOf(c), rest);
      JustCommandsCons(c, Parse(CodecFor(sid), NextSeq(n), rest), cs[1..]);
    }
  }
}
