/**
 The two clocks a publisher keeps for a subscriber, over any run of visits to it: the stall timer, which
 decides when the subscriber is dropped, and the heartbeat clock.
 */
module Watching {
  import opened Types
  import opened Feed
  import Modular

  /** Bytes pending, the time the socket began to take nothing, and the time of the last frame queued; 0 is never. */
  datatype Watch = Watch(pending: int, since: U64, lastTx: U64)

  const NEW_WATCH := Watch(0, 0, 0)

  /**
   What can be done with a subscriber: a pump queues some bytes and flushes, a writable socket is flushed,
   and a Subscribe is answered. Each tells how many bytes were queued, and how many the socket took.
   */
  datatype Visit = Pump(now: U64, queued: nat, taken: nat) | Writable(taken: nat) | Greeted(queued: nat)

  /** No socket takes more than is pending. */
  predicate Possible(w: Watch, v: Visit) {
    match v
    case Pump(_, queued, taken) => taken <= w.pending + queued
    case Writable(taken) => taken <= w.pending
    case Greeted(_) => true
  }

  /** A pump finds bytes pending and the socket taking none of them. */
  predicate Stalls(w: Watch, v: Visit) {
    v.Pump? && w.pending + v.queued > 0 && v.taken == 0
  }

  /** The stall timer after a pump: only a pump that stalls keeps it going. */
  function StallSince(stalled: bool, since: U64, now: U64): U64 {
    if !stalled then 0 else if since == 0 then now else since
  }

  function Visited(w: Watch, v: Visit): Watch {
    match v
    case Pump(now, queued, taken) =>
      Watch(w.pending + queued - taken, StallSince(Stalls(w, v), w.since, now),
            if queued > 0 || w.lastTx == 0 then now else w.lastTx)
    case Writable(taken) => w.(pending := w.pending - taken)
    case Greeted(queued) => w.(pending := w.pending + queued, lastTx := if queued > 0 then 0 else w.lastTx)
  }

  /** The visit finds that the socket has taken nothing for the timeout. */
  predicate Drops(w: Watch, v: Visit, timeout: U64) {
    Stalls(w, v) && Modular.Minus(v.now, Visited(w, v).since) >= timeout
  }

  // ---------------------------------------------------------------- runs of visits

  /** The watch kept of a subscriber visited so. */
  function Tally(vs: seq<Visit>): Watch {
    if vs == [] then NEW_WATCH else Visited(Tally(vs[..|vs| - 1]), vs[|vs| - 1])
  }

  lemma TallySnoc(vs: seq<Visit>, v: Visit)
    ensures Tally(vs + [v]) == Visited(Tally(vs), v)
  {
    assert (vs + [v])[..|vs|] == vs;
  }

  /** The visits to a subscriber, with the watch they leave. */
  datatype Visits = Visits(all: seq<Visit>, watch: Watch)

  /** Each visit was possible when it came. */
  predicate Real(vs: seq<Visit>) {
    vs == [] || (Real(vs[..|vs| - 1]) && Possible(Tally(vs[..|vs| - 1]), vs[|vs| - 1]))
  }

  type Record = r: Visits | Real(r.all) && r.watch == Tally(r.all) witness Visits([], NEW_WATCH)

  /** The record with one more visit. */
  function Enter(r: Record, v: Visit): (r': Record)
    requires Possible(r.watch, v)
    ensures r'.all == r.all + [v] && r'.watch == Visited(r.watch, v)
  {
    TallySnoc(r.all, v);
    assert (r.all + [v])[..|r.all|] == r.all;
    Visits(r.all + [v], Visited(r.watch, v))
  }

  /** All bytes queued by the visits, and all bytes the socket took. */
  function QueuedIn(vs: seq<Visit>): nat {
    if vs == [] then 0
    else
      var n := |vs| - 1;
      QueuedIn(vs[..n]) + if vs[n].Writable? then 0 else vs[n].queued
  }

  function TakenIn(vs: seq<Visit>): nat {
    if vs == [] then 0
    else
      var n := |vs| - 1;
      TakenIn(vs[..n]) + if vs[n].Greeted? then 0 else vs[n].taken
  }

  lemma {:induction false} PendingIs(vs: seq<Visit>)
    ensures Tally(vs).pending == QueuedIn(vs) - TakenIn(vs)
  {
    if vs != [] { PendingIs(vs[..|vs| - 1]); }
  }

  /** Visit `k` is a pump at which more has been queued than was ever taken, and nothing is taken. */
  predicate StalledAt(vs: seq<Visit>, k: nat)
    requires k < |vs|
  {
    vs[k].Pump? && vs[k].taken == 0 && QueuedIn(vs[..k + 1]) > TakenIn(vs[..k])
  }

  lemma StallsIs(vs: seq<Visit>, k: nat)
    requires k < |vs|
    ensures Stalls(Tally(vs[..k]), vs[k]) == StalledAt(vs, k)
  {
    PendingIs(vs[..k]);
    assert vs[..k + 1][..k] == vs[..k];
  }

  /** The clock is running and does not go back. */
  predicate Clocked(vs: seq<Visit>) {
    && (forall k | 0 <= k < |vs| :: vs[k].Pump? ==> vs[k].now > 0)
    && (forall j, k | 0 <= j < k < |vs| && vs[j].Pump? && vs[k].Pump? :: vs[j].now <= vs[k].now)
  }

  // ---------------------------------------------------------------- the stall timer

  /** From visit `j`, a pump, on, every pump stalled. */
  predicate Span(vs: seq<Visit>, j: nat) {
    j < |vs| && vs[j].Pump? && forall k: nat | j <= k < |vs| && vs[k].Pump? :: StalledAt(vs, k)
  }

  lemma StalledBefore(vs: seq<Visit>, k: nat)
    requires k + 1 < |vs|
    ensures StalledAt(vs[..|vs| - 1], k) == StalledAt(vs, k)
  {
    assert vs[..|vs| - 1][..k] == vs[..k] && vs[..|vs| - 1][..k + 1] == vs[..k + 1];
  }

  lemma SpanSnoc(vs: seq<Visit>, k: nat)
    requires k + 1 < |vs|
    ensures var n := |vs| - 1; Span(vs, k) <==> Span(vs[..n], k) && (vs[n].Pump? ==> StalledAt(vs, n))
  {
    var n := |vs| - 1;
    forall i: nat | i < n ensures StalledAt(vs[..n], i) == StalledAt(vs, i) {
      StalledBefore(vs, i);
    }
  }

  lemma SpanLast(vs: seq<Visit>)
    requires vs != []
    ensures var n := |vs| - 1; Span(vs, n) <==> vs[n].Pump? && StalledAt(vs, n)
  {
  }

  /** The timer stands at the first pump of the longest such span; without one it is off. */
  lemma {:induction false} TimerIs(vs: seq<Visit>) returns (j: nat)
    requires Clocked(vs)
    ensures Tally(vs).since == 0 ==> forall i: nat :: !Span(vs, i)
    ensures Tally(vs).since != 0 ==> Span(vs, j) && vs[j].now == Tally(vs).since && forall i: nat | Span(vs, i) :: j <= i
    decreases |vs|
  {
    j := 0;
    if vs != [] {
      var n := |vs| - 1;
      var i := TimerIs(vs[..n]);
      forall k: nat | k < n ensures Span(vs, k) <==> Span(vs[..n], k) && (vs[n].Pump? ==> StalledAt(vs, n)) {
        SpanSnoc(vs, k);
      }
      SpanLast(vs);
      StallsIs(vs, n);
      j := if Tally(vs[..n]).since != 0 then i else n;
    }
  }

  /** A pump drops the subscriber iff it ends a span of pumps as long as the timeout, all of which stalled. */
  lemma DroppedIff(r: Record, v: Visit, timeout: U64)
    requires v.Pump? && Clocked(r.all + [v])
    ensures Drops(r.watch, v, timeout) <==> exists j: nat | Span(r.all + [v], j) :: v.now - (r.all + [v])[j].now >= timeout
  {
    var vs := r.all + [v];
    assert vs[..|r.all|] == r.all;
    var j := TimerIs(vs);
    SpanLast(vs);
    StallsIs(vs, |r.all|);
  }

  /** What the socket took from visit `j` on. */
  function TakenFrom(vs: seq<Visit>, j: nat): nat
    requires j <= |vs|
    decreases |vs| - j
  {
    if j == |vs| then 0
    else (if vs[j].Greeted? then 0 else vs[j].taken) + TakenFrom(vs, j + 1)
  }

  lemma {:induction false} TakenIs(vs: seq<Visit>, j: nat, i: nat)
    requires Span(vs, j) && j <= i <= |vs|
    ensures TakenFrom(vs, i) == 0 <==> forall k | i <= k < |vs| && vs[k].Writable? :: vs[k].taken == 0
    decreases |vs| - i
  {
    if i < |vs| {
      TakenIs(vs, j, i + 1);
      assert vs[i].Pump? ==> StalledAt(vs, i);
    }
  }

  /**
   The documented promise at a drop, that the peer took nothing for the timeout, holds iff no writable
   socket was flushed of anything since the timer started.
   */
  lemma DeservedIff(r: Record, v: Visit, timeout: U64) returns (j: nat)
    requires v.Pump? && Clocked(r.all + [v]) && Drops(r.watch, v, timeout)
    ensures var vs := r.all + [v];
            && j < |vs| && vs[j].Pump? && vs[j].now == Visited(r.watch, v).since && v.now - vs[j].now >= timeout
            && (TakenFrom(vs, j) == 0 <==> forall k | j <= k < |vs| && vs[k].Writable? :: vs[k].taken == 0)
  {
    var vs := r.all + [v];
    assert vs[..|r.all|] == r.all;
    j := TimerIs(vs);
    SpanLast(vs);
    StallsIs(vs, |r.all|);
    TakenIs(vs, j, j);
  }

  // ---------------------------------------------------------------- the heartbeat clock

  /** Is a heartbeat due at `now`? The clock restarts with every frame queued, and starts at the first pump. */
  predicate Due(now: U64, lastTx: U64, moved: bool, interval: U64) {
    Modular.Minus(now, if moved || lastTx == 0 then now else lastTx) >= interval
  }

  /** What a pump at `now` queues for a cursor, given the heartbeat clock. */
  function PumpedAt(cfg: Config, log: Log, next: nat, w: Watch, now: U64, interval: U64): Batch
    requires 1 <= next <= |log| + 1 && w.pending >= 0
  {
    var due := Due(now, w.lastTx, Moved(cfg, log, next, w.pending).fs != [], interval);
    Pumped(cfg, log, next, w.pending, due, now)
  }

  /** A pump that moves nothing queues a heartbeat iff nothing is pending, the cursor is at the head and it is time. */
  lemma BeatsIff(cfg: Config, log: Log, next: nat, w: Watch, now: U64, interval: U64)
    requires cfg.max > 0 && 1 <= next <= |log| + 1 && w.pending >= 0
    ensures PumpedAt(cfg, log, next, w, now, interval).fs == [Heartbeat(now, |log|)]
            <==> w.pending == 0 && next == |log| + 1 && Due(now, w.lastTx, false, interval)
  {
    var m := Moved(cfg, log, next, w.pending);
    MovedSize(cfg, log, next, w.pending);
    EncodeAllEmpty(m.fs);
  }

  /** No pump has come yet, or none since a greeting that queued something. */
  predicate Unclocked(vs: seq<Visit>) {
    vs == [] ||
    (var (rest, v) := (vs[..|vs| - 1], vs[|vs| - 1]);
     (v.Greeted? && v.queued > 0) || (!v.Pump? && Unclocked(rest)))
  }

  /** The first pump then starts the clock: it queues a heartbeat iff the interval is nothing. */
  lemma FirstPumpBeatsIff(cfg: Config, log: Log, vs: seq<Visit>, now: U64, interval: U64)
    requires cfg.max > 0 && Unclocked(vs) && Tally(vs).pending == 0
    ensures PumpedAt(cfg, log, |log| + 1, Tally(vs), now, interval).fs == [Heartbeat(now, |log|)] <==> interval == 0
  {
    ClockOff(vs);
    BeatsIff(cfg, log, |log| + 1, Tally(vs), now, interval);
  }

  lemma {:induction false} ClockOff(vs: seq<Visit>)
    requires Unclocked(vs)
    ensures Tally(vs).lastTx == 0
  {
    if vs != [] && !(vs[|vs| - 1].Greeted? && vs[|vs| - 1].queued > 0) { ClockOff(vs[..|vs| - 1]); }
  }

  /** Visits that queue nothing. */
  predicate Silent(vs: seq<Visit>) {
    forall v | v in vs :: !v.Writable? ==> v.queued == 0
  }

  lemma {:induction false} ClockKept(vs: seq<Visit>, more: seq<Visit>)
    requires Silent(more) && Tally(vs).lastTx != 0
    ensures Tally(vs + more).lastTx == Tally(vs).lastTx
    decreases |more|
  {
    if more == [] {
      assert vs + more == vs;
    } else {
      var n := |more| - 1;
      assert more[n] in more;
      ClockKept(vs, more[..n]);
      assert vs + more == (vs + more[..n]) + [more[n]];
      TallySnoc(vs + more[..n], more[n]);
    }
  }

  /**
   On a quiet stream: after a pump that queued something, or that starts the clock, and visits that queued nothing
   since, a pump queues a heartbeat iff the socket has taken everything, the cursor is at the head, and the interval has
   passed.
   */
  lemma HeartbeatOnTime(cfg: Config, log: Log, next: nat, vs: seq<Visit>, last: Visit, more: seq<Visit>, now: U64, interval: U64)
    requires cfg.max > 0 && 1 <= next <= |log| + 1 && Silent(more)
    requires last.Pump? && (last.queued > 0 || Unclocked(vs))
    requires 0 < last.now <= now && Tally(vs + [last] + more).pending >= 0
    ensures var w := Tally(vs + [last] + more);
            PumpedAt(cfg, log, next, w, now, interval).fs == [Heartbeat(now, |log|)]
            <==> w.pending == 0 && next == |log| + 1 && now - last.now >= interval
  {
    TallySnoc(vs, last);
    if last.queued == 0 { ClockOff(vs); }
    ClockKept(vs + [last], more);
    BeatsIff(cfg, log, next, Tally(vs + [last] + more), now, interval);
  }
}
