/**
 The wire format: packed little-endian frames, each starting with an 8-byte header.
 */
module Wire {
  import opened Types

  type byte = x: int | 0 <= x < 256
  type Bytes = seq<byte>

  // ---------------------------------------------------------------- little-endian integers

  function Pow256(k: nat): nat {
    if k == 0 then 1 else 256 * Pow256(k - 1)
  }

  /** The low `k` bytes of `n`, least significant first. */
  function LE(n: nat, k: nat): (b: Bytes)
    ensures |b| == k
  {
    if k == 0 then [] else [n % 256] + LE(n / 256, k - 1)
  }

  function UnLE(b: Bytes): nat {
    if b == [] then 0 else b[0] + 256 * UnLE(b[1..])
  }

  lemma {:induction false} UnLEOfLE(n: nat, k: nat)
    requires n < Pow256(k)
    ensures UnLE(LE(n, k)) == n
  {
    if k > 0 {
      assert LE(n, k)[1..] == LE(n / 256, k - 1);
      UnLEOfLE(n / 256, k - 1);
    }
  }

  lemma {:induction false} LEOfUnLE(b: Bytes)
    ensures UnLE(b) < Pow256(|b|) && LE(UnLE(b), |b|) == b
  {
    if b != [] {
      LEOfUnLE(b[1..]);
      var n := UnLE(b);
      assert n % 256 == b[0] && n / 256 == UnLE(b[1..]);
      assert b == [b[0]] + b[1..];
    }
  }

  lemma Widths()
    ensures Pow256(1) == 256 && Pow256(2) == 0x1_0000 && Pow256(4) == TWO32 && Pow256(8) == TWO64
  {
    assert Pow256(4) == 256 * (256 * Pow256(2));
    assert Pow256(6) == 256 * (256 * Pow256(4));
    assert Pow256(8) == 256 * (256 * Pow256(6));
  }

  /** The unsigned field of width `k` at offset `off`. */
  function Field(b: Bytes, off: nat, k: nat): nat
    requires off + k <= |b|
  {
    UnLE(b[off..off + k])
  }

  function U16At(b: Bytes, off: nat): U16
    requires off + 2 <= |b|
  {
    (b[off] as int) + 0x100 * (b[off + 1] as int)
  }

  function U32At(b: Bytes, off: nat): U32
    requires off + 4 <= |b|
  {
    U16At(b, off) + 0x1_0000 * U16At(b, off + 2)
  }

  function U64At(b: Bytes, off: nat): U64
    requires off + 8 <= |b|
  {
    U32At(b, off) + 0x1_0000_0000 * U32At(b, off + 4)
  }

  lemma Carry(x: nat, p: nat, y: nat)
    ensures 256 * (x + p * y) == 256 * x + (256 * p) * y
  {
  }

  lemma {:induction false} UnLEConcat(a: Bytes, b: Bytes)
    ensures UnLE(a + b) == UnLE(a) + Pow256(|a|) * UnLE(b)
  {
    if a == [] {
      assert a + b == b;
    } else {
      var (x, p, y) := (UnLE(a[1..]), Pow256(|a| - 1), UnLE(b));
      calc {
        UnLE(a + b);
        { TailConcat(a, b); }
        a[0] + 256 * UnLE(a[1..] + b);
        { UnLEConcat(a[1..], b); }
        a[0] + 256 * (x + p * y);
        { Carry(x, p, y); }
        a[0] + 256 * x + (256 * p) * y;
      }
    }
  }

  /** The fixed-width readers read the field there. */
  lemma ReadsField(b: Bytes, off: nat)
    ensures off + 2 <= |b| ==> U16At(b, off) == Field(b, off, 2)
    ensures off + 4 <= |b| ==> U32At(b, off) == Field(b, off, 4)
    ensures off + 8 <= |b| ==> U64At(b, off) == Field(b, off, 8)
  {
    Widths();
    if off + 2 <= |b| { Reads2(b, off); }
    if off + 4 <= |b| { Reads4(b, off); }
    if off + 8 <= |b| {
      Reads4(b, off);
      Reads4(b, off + 4);
      assert b[off..off + 8] == b[off..off + 4] + b[off + 4..off + 8];
      UnLEConcat(b[off..off + 4], b[off + 4..off + 8]);
    }
  }

  lemma Reads2(b: Bytes, off: nat)
    requires off + 2 <= |b|
    ensures U16At(b, off) == Field(b, off, 2)
  {
    var s := b[off..off + 2];
    assert s[1..][1..] == [];
    assert UnLE(s[1..]) == s[1];
  }

  lemma Reads4(b: Bytes, off: nat)
    requires off + 4 <= |b|
    ensures U32At(b, off) == Field(b, off, 4)
  {
    Reads2(b, off);
    Reads2(b, off + 2);
    Widths();
    assert b[off..off + 4] == b[off..off + 2] + b[off + 2..off + 4];
    UnLEConcat(b[off..off + 2], b[off + 2..off + 4]);
  }

  /** A field written at the front reads back. */
  lemma FieldHead(n: nat, k: nat, post: Bytes)
    requires n < Pow256(k)
    ensures Field(LE(n, k) + post, 0, k) == n
  {
    assert (LE(n, k) + post)[0..k] == LE(n, k);
    UnLEOfLE(n, k);
  }

  /** A field behind `a` is read past it. */
  lemma FieldSkip(a: Bytes, b: Bytes, off: nat, k: nat)
    requires |a| <= off && off + k <= |a| + |b|
    ensures Field(a + b, off, k) == Field(b, off - |a|, k)
  {
    assert (a + b)[off..off + k] == b[off - |a|..off - |a| + k];
  }

  /** A field inside a prefix is read there. */
  lemma FieldPrefix(a: Bytes, b: Bytes, off: nat, k: nat)
    requires off + k <= |a|
    ensures Field(a + b, off, k) == Field(a, off, k)
  {
    assert (a + b)[off..off + k] == a[off..off + k];
  }

  /** Signed 64-bit fields are two's complement. */
  function ToU64(i: I64): U64 {
    if i < 0 then i + TWO64 else i
  }

  function ToI64(n: U64): (i: I64)
    ensures ToU64(i) == n
  {
    if n >= 0x8000_0000_0000_0000 then n - TWO64 else n
  }

  lemma SignedRoundTrip(i: I64)
    ensures ToI64(ToU64(i)) == i
  {
  }

  // ---------------------------------------------------------------- headers

  const VERSION: byte := 1
  const HEADER: nat := 8
  const MAX_FRAME: nat := 64

  const NEW_ORDER: byte := 1
  const CANCEL_ORDER: byte := 2
  const REPLACE_ORDER: byte := 3
  const SUBSCRIBE: byte := 4
  const TRADE: byte := 32
  const TOP: byte := 33
  const HEARTBEAT: byte := 34
  const GAP: byte := 35

  datatype Header = Header(len: U16, kind: byte, version: byte, seqNo: U32)

  function EncodeHeader(h: Header): (b: Bytes)
    ensures |b| == HEADER
  {
    LE(h.len, 2) + ([h.kind, h.version] + LE(h.seqNo, 4))
  }

  function ReadHeaderAt(b: Bytes, off: nat): Header
    requires off + HEADER <= |b|
  {
    Header(U16At(b, off), b[off + 2], b[off + 3], U32At(b, off + 4))
  }

  function ReadHeader(b: Bytes): Header
    requires |b| >= HEADER
  {
    ReadHeaderAt(b, 0)
  }

  lemma HeaderRoundTrip(h: Header, rest: Bytes)
    ensures ReadHeader(EncodeHeader(h) + rest) == h
  {
    Widths();
    var tail := [h.kind, h.version] + LE(h.seqNo, 4);
    FieldPrefix(EncodeHeader(h), rest, 0, 2);
    FieldHead(h.len, 2, tail);
    FieldPrefix(EncodeHeader(h), rest, 4, 4);
    FieldSkip(LE(h.len, 2), tail, 4, 4);
    FieldSkip([h.kind, h.version], LE(h.seqNo, 4), 2, 4);
    FieldHead(h.seqNo, 4, []);
    assert LE(h.seqNo, 4) + [] == LE(h.seqNo, 4);
    ReadsField(EncodeHeader(h) + rest, 0);
    ReadsField(EncodeHeader(h) + rest, 4);
  }

  /** Where the fields of a header lie: length, type, version, sequence. */
  lemma HeaderLayout(b: Bytes)
    requires |b| >= HEADER
    ensures var h := ReadHeader(b);
            h.len == Field(b, 0, 2) && h.kind == b[2] && h.version == b[3] && h.seqNo == Field(b, 4, 4)
  {
    ReadsField(b, 0);
    ReadsField(b, 4);
  }

  lemma HeaderPrefix(a: Bytes, b: Bytes)
    requires |a| >= HEADER
    ensures ReadHeader(a + b) == ReadHeader(a)
  {
  }

  /** The frame size of a message type; 0 for an unknown one. */
  function SizeFor(kind: byte): (n: nat)
    ensures n == 0 <==> !(1 <= kind <= 4 || 16 <= kind <= 20 || 32 <= kind <= 35)
    ensures n != 0 ==> HEADER < n <= MAX_FRAME && n % 8 == 0
  {
    match kind
    case 1 => 40
    case 2 => 24
    case 3 => 40
    case 4 => 16
    case 16 => 24
    case 17 => 24
    case 18 => 40
    case 19 => 24
    case 20 => 32
    case 32 => 40
    case 33 => 40
    case 34 => 24
    case 35 => 24
    case _ => 0
  }
}
