/** A non-blocking connection with buffered output, written to a socket that takes any number of bytes. */
module Connection {
  import opened Types
  import opened Wire

  /** What one write call reports; a count never exceeds what was offered, and zero is fatal. */
  datatype Io = Wrote(n: nat) | WouldBlock | Interrupted | Failed

  const COMPACT_AT: nat := 0x1_0000

  /** Of `n` bytes offered to a socket answering `rs`: how many it takes, and whether it survives. */
  function Taken(n: nat, rs: seq<Io>): (r: (nat, bool))
    ensures r.0 <= n
    decreases |rs|
  {
    if n == 0 || rs == [] then (0, true)
    else
      match rs[0]
      case WouldBlock => (0, true)
      case Failed => (0, false)
      case Interrupted => Taken(n, rs[1..])
      case Wrote(k) =>
        if k == 0 then (0, false)
        else
          var r := Taken(n - Min(k, n), rs[1..]);
          (Min(k, n) + r.0, r.1)
  }

  /** What the answers would take of enough bytes. */
  function Sum(rs: seq<Io>): nat {
    if rs == [] then 0 else (if rs[0].Wrote? then rs[0].n else 0) + Sum(rs[1..])
  }

  /** An answer after which writing goes on. */
  predicate GoesOn(r: Io) {
    r == Interrupted || (r.Wrote? && r.n > 0)
  }

  /**
   The socket is offered the rest again and again: it takes what the first `k` answers say, until all is taken or an
   answer ends it. Only a failure, or a write of nothing, is fatal.
   */
  lemma {:induction false} TakenIs(n: nat, rs: seq<Io>) returns (k: nat)
    ensures k <= |rs| && Taken(n, rs).0 == Min(n, Sum(rs[..k])) && forall i | 0 <= i < k :: GoesOn(rs[i])
    ensures Taken(n, rs).0 == n || k == |rs| || !GoesOn(rs[k])
    ensures Taken(n, rs).1 <==> Taken(n, rs).0 == n || k == |rs| || rs[k] == WouldBlock
    decreases |rs|
  {
    k := 0;
    if n > 0 && rs != [] && GoesOn(rs[0]) {
      var m := if rs[0].Wrote? then n - Min(rs[0].n, n) else n;
      var j := TakenIs(m, rs[1..]);
      k := j + 1;
      assert rs[..k][1..] == rs[1..][..j];
    }
  }

  /** With `done` of `n` bytes taken, the answers left decide the rest. */
  predicate Midway(n: nat, all: seq<Io>, done: nat, left: seq<Io>) {
    done <= n && Taken(n, all) == (done + Taken(n - done, left).0, Taken(n - done, left).1)
  }

  class Conn {
    var tx: Bytes
    var txOff: nat
    var wantWrite: bool
    ghost var accepted: Bytes  // what the socket took
    ghost var queued: Bytes    // everything ever queued

    /** What the socket took, followed by the backlog, is everything queued. */
    ghost predicate Sound()
      reads this
    {
      txOff <= |tx| && accepted + tx[txOff..] == queued
    }

    /** Between flushes the dead prefix is short. */
    ghost predicate Valid()
      reads this
    {
      Sound() && txOff <= COMPACT_AT
    }

    constructor ()
      ensures Valid() && tx == [] && accepted == [] && queued == []
    {
      tx, txOff, wantWrite, accepted, queued := [], 0, false, [], [];
    }

    function Backlog(): Bytes
      requires txOff <= |tx|
      reads this
    {
      tx[txOff..]
    }

    predicate Pending()
      reads this
    {
      txOff < |tx|
    }

    method Append(b: Bytes)
      requires Valid()
      modifies this`tx, this`queued
      ensures Valid() && Backlog() == old(Backlog()) + b && queued == old(queued) + b
    {
      assert (tx + b)[txOff..] == tx[txOff..] + b;
      Assoc(accepted, tx[txOff..], b);
      tx := tx + b;
      queued := queued + b;
    }

    /** Writes until the socket would block; then drops what was written, once all of it or enough of it was. */
    method Flush(rs: seq<Io>) returns (ok: bool)
      requires Valid()
      modifies this`tx, this`txOff, this`accepted
      ensures Sound() && (ok ==> Valid() && (!Pending() ==> tx == []))
      ensures var (n, up) := Taken(|old(Backlog())|, rs);
              ok == up && Backlog() == old(Backlog())[n..] && accepted == old(accepted) + old(Backlog())[..n]
    {
      ok := Write(rs);
      if !ok { return; }
      if txOff == |tx| {
        tx, txOff := [], 0;
      } else if txOff > COMPACT_AT {
        tx, txOff := tx[txOff..], 0;
      }
    }

    method Write(rs: seq<Io>) returns (ok: bool)
      requires Sound()
      modifies this`txOff, this`accepted
      ensures Sound()
      ensures var (n, up) := Taken(|old(Backlog())|, rs);
              ok == up && Backlog() == old(Backlog())[n..] && accepted == old(accepted) + old(Backlog())[..n]
    {
      var i := 0;
      ok := true;
      assert rs[0..] == rs;
      while txOff < |tx| && i < |rs|
        invariant i <= |rs| && ok && accepted == old(accepted) && old(txOff) <= txOff <= |tx|
        invariant Midway(|tx| - old(txOff), rs, txOff - old(txOff), rs[i..])
        decreases |rs| - i
      {
        assert rs[i..][1..] == rs[i + 1..];
        match rs[i] {
          case Interrupted =>
          case WouldBlock => break;
          case Failed =>
            ok := false;
            break;
          case Wrote(k) =>
            if k == 0 {
              ok := false;
              break;
            }
            txOff := txOff + Min(k, |tx| - txOff);
        }
        i := i + 1;
      }
      Account(accepted, tx, old(txOff), txOff);
      accepted := accepted + tx[old(txOff)..txOff];
    }

    /** Flushes, then asks to be told when the socket is writable exactly while bytes are pending. */
    method FlushAndArm(rs: seq<Io>) returns (ok: bool)
      requires Valid()
      modifies this`tx, this`txOff, this`accepted, this`wantWrite
      ensures Sound() && (ok ==> Valid() && wantWrite == Pending())
      ensures var (n, up) := Taken(|old(Backlog())|, rs);
              ok == up && Backlog() == old(Backlog())[n..] && accepted == old(accepted) + old(Backlog())[..n]
    {
      ok := Flush(rs);
      if ok && Pending() != wantWrite { wantWrite := Pending(); }
    }
  }

  /** Moving bytes from the backlog to what was accepted loses none. */
  lemma Account(accepted: Bytes, tx: Bytes, from: nat, to: nat)
    requires from <= to <= |tx|
    ensures accepted + tx[from..to] + tx[to..] == accepted + tx[from..]
    ensures tx[from..][..to - from] == tx[from..to] && tx[from..][to - from..] == tx[to..]
  {
    assert tx[from..] == tx[from..to] + tx[to..];
  }
}
