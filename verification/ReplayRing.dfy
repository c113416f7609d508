/**
 The replay ring: one flat buffer of fixed-size slots, the frame of sequence n in slot n modulo the
 capacity. Whatever has been published, every sequence it still holds reads back as the frame published
 under it.
 */
module Replay {
  import opened Types
  import opened Wire
  import opened Feed
  import Modular

  /** Where the slot of sequence `n` starts. */
  function At(n: nat, cap: nat): nat
    requires cap > 0
  {
    MAX_FRAME * (n % cap)
  }

  lemma SlotFits(n: nat, cap: nat)
    requires cap > 0
    ensures At(n, cap) + MAX_FRAME <= MAX_FRAME * cap
  {
  }

  function FrameOf(log: Log, n: nat): Bytes
    requires 1 <= n <= |log|
  {
    Encode(Data(n, log[n - 1]))
  }

  ghost predicate Stored(b: Bytes, cap: nat, log: Log, n: nat)
    requires cap > 0 && |b| == MAX_FRAME * cap && 1 <= n <= |log|
  {
    SlotFits(n, cap);
    b[At(n, cap)..At(n, cap) + |FrameOf(log, n)|] == FrameOf(log, n)
  }

  /** Every retained sequence is stored. */
  ghost predicate Retains(b: Bytes, cap: nat, log: Log) {
    cap > 0 && |b| == MAX_FRAME * cap && forall n: nat | Oldest(cap, |log|) <= n <= |log| :: Stored(b, cap, log, n)
  }

  /** The slot of a sequence still retained after the next append is not the one the append overwrites. */
  lemma Apart(n: nat, head: nat, cap: nat)
    requires cap > 0 && Oldest(cap, head + 1) <= n <= head
    ensures At(n, cap) + MAX_FRAME <= At(head + 1, cap) || At(head + 1, cap) + MAX_FRAME <= At(n, cap)
  {
    Modular.SlotsDiffer(head + 1, n, cap);
  }

  lemma StoredStays(b: Bytes, b': Bytes, cap: nat, log: Log, i: Item, n: nat)
    requires cap > 0 && |log| + 1 < TWO32 - 1 && |b| == |b'| == MAX_FRAME * cap
    requires Oldest(cap, |log| + 1) <= n <= |log| && Stored(b, cap, log, n)
    requires forall k | 0 <= k < |b| && !(At(|log| + 1, cap) <= k < At(|log| + 1, cap) + MAX_FRAME) :: b'[k] == b[k]
    ensures Stored(b', cap, log + [i], n)
  {
    SlotFits(n, cap);
    Apart(n, |log|, cap);
    var at, len := At(n, cap), |FrameOf(log, n)|;
    assert b'[at..at + len] == b[at..at + len];
  }

  /** Overwriting the next slot with the next frame keeps every retained frame. */
  lemma AppendRetains(b: Bytes, b': Bytes, cap: nat, log: Log, i: Item)
    requires |log| + 1 < TWO32 - 1 && Retains(b, cap, log) && |b'| == |b|
    requires forall k | 0 <= k < |b| && !(At(|log| + 1, cap) <= k < At(|log| + 1, cap) + MAX_FRAME) :: b'[k] == b[k]
    requires Stored(b', cap, log + [i], |log| + 1)
    ensures Retains(b', cap, log + [i])
  {
    var more: Log := log + [i];
    forall n: nat | Oldest(cap, |more|) <= n <= |more| ensures Stored(b', cap, more, n) {
      if n <= |log| {
        assert Oldest(cap, |log|) <= n;
        StoredStays(b, b', cap, log, i, n);
      }
    }
  }

  class ReplayRing {
    const cap: nat
    const buf: array<byte>
    var head: U32
    ghost var log: Log

    ghost predicate Valid()
      reads this, buf
    {
      head == |log| && Retains(buf[..], cap, log)
    }

    constructor (log2: nat)
      ensures Valid() && fresh(buf) && cap == Modular.Pow2(log2) && log == []
    {
      Modular.Pow2Positive(log2);
      cap := Modular.Pow2(log2);
      buf := new byte[MAX_FRAME * Modular.Pow2(log2)];
      head, log := 0, [];
    }

    /** The oldest sequence still retained: those from it on are the last `cap` published. */
    function OldestHeld(): (n: U32)
      requires Valid()
      reads this, buf
      ensures 1 <= n <= head + 1
      ensures forall m: nat :: Recent(cap, head, m) <==> n <= m <= head
    {
      if head > cap then head - cap + 1 else 1
    }

    predicate Holds(n: U32)
      requires Valid()
      reads this, buf
    {
      n >= OldestHeld() && n <= head && n != 0
    }

    /** Stamps the next sequence on a frame and stores it. */
    method Append(i: Item) returns (n: U32)
      requires Valid() && |log| + 1 < TWO32 - 1
      modifies this`head, this`log, buf
      ensures Valid() && log == old(log) + [i] && n == head
    {
      n := head + 1;
      head := n;
      var f := Encode(Data(n, i));
      var at := At(n, cap);
      SlotFits(n, cap);
      ghost var before := buf[..];
      forall k | 0 <= k < |f| {
        buf[at + k] := f[k];
      }
      ghost var more: Log := log + [i];
      assert buf[..][at..at + |f|] == f;
      assert Stored(buf[..], cap, more, n);
      AppendRetains(before, buf[..], cap, log, i);
      log := more;
    }

    /** The bytes of a retained frame; their number comes from its header. */
    method Frame(n: U32) returns (b: Bytes)
      requires Valid() && Holds(n)
      ensures b == FrameOf(log, n)
    {
      ghost var f := Data(n, log[n - 1]);
      assert Stored(buf[..], cap, log, n);
      SlotFits(n, cap);
      var at := At(n, cap);
      var h := ReadHeader(buf[at..at + HEADER]);
      assert buf[at..at + HEADER] == buf[..][at..at + |Encode(f)|][..HEADER] == Encode(f)[..HEADER];
      HeaderReads(f, []);
      HeaderPrefix(Encode(f)[..HEADER], Encode(f)[HEADER..]);
      assert Encode(f) + [] == Encode(f) == Encode(f)[..HEADER] + Encode(f)[HEADER..];
      b := buf[at..at + h.len];
    }
  }
}
