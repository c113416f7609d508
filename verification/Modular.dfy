/** Arithmetic of wrapping indices and power-of-two capacities. */
module Modular {
  import opened Types

  function Pow2(k: nat): nat {
    if k == 0 then 1 else 2 * Pow2(k - 1)
  }

  lemma {:induction false} Pow2Add(a: nat, b: nat)
    ensures Pow2(a + b) == Pow2(a) * Pow2(b)
  {
    if a > 0 {
      Pow2Add(a - 1, b);
      assert Pow2(a + b) == 2 * Pow2(a - 1 + b);
    }
  }

  lemma Pow2Is64()
    ensures Pow2(64) == TWO64
  {
    assert Pow2(8) == 256 by { Pow2Add(4, 4); assert Pow2(4) == 16; }
    assert Pow2(16) == 65536 by { Pow2Add(8, 8); }
    assert Pow2(32) == TWO32 by { Pow2Add(16, 16); }
    Pow2Add(32, 32);
  }

  lemma {:induction false} Pow2Positive(k: nat)
    ensures Pow2(k) > 0
  {
    if k > 0 { Pow2Positive(k - 1); }
  }

  /** Quotient and remainder are unique. */
  lemma DivModUnique(a: int, c: nat, q: int, r: nat)
    requires c > 0 && r < c && a == c * q + r
    ensures a % c == r
  {
    var q', r' := a / c, a % c;
    assert a == c * q' + r';
    assert c * (q - q') == r' - r;
    if q > q' {
      MulAtLeast(c, q - q');
    } else if q < q' {
      MulAtLeast(c, q' - q);
    }
  }

  lemma MulAtLeast(c: nat, d: nat)
    requires d >= 1
    ensures c * d >= c
  {
    assert c * d == c * (d - 1) + c;
  }

  lemma ModPlusMultiple(r: int, c: nat, q: int)
    requires c > 0
    ensures (r + c * q) % c == r % c
  {
    assert r == c * (r / c) + r % c;
    assert r + c * q == c * (r / c + q) + r % c;
    DivModUnique(r + c * q, c, r / c + q, r % c);
  }

  lemma ModOfMultiple(n: nat, c: nat, m: nat)
    requires c > 0 && m > 0 && c * m > 0
    ensures n % (c * m) % c == n % c
  {
    var q, r := n / (c * m), n % (c * m);
    assert n == c * m * q + r;
    assert c * m * q == c * (m * q);
    ModPlusMultiple(r, c, m * q);
  }

  lemma {:induction false} Pow2Below(k: nat, n: nat)
    requires k < n
    ensures Pow2(k) < Pow2(n)
    decreases n
  {
    Pow2Positive(n - 1);
    if k < n - 1 { Pow2Below(k, n - 1); }
  }

  lemma CapacityFits(k: nat)
    requires k < 64
    ensures 0 < Pow2(k) < TWO64
  {
    Pow2Positive(k);
    Pow2Below(k, 64);
    Pow2Is64();
  }

  /** An unbounded counter as it is kept in a 64-bit word. */
  function Wrap(n: nat): (r: nat)
    ensures r < TWO64
  {
    if n < TWO64 then n else Wrap(n - TWO64)
  }

  /** Subtraction of 64-bit words. */
  function Minus(a: nat, b: nat): nat
    requires a < TWO64 && b < TWO64
  {
    if a >= b then a - b else a + TWO64 - b
  }

  /** Increment of a 64-bit word. */
  function Next(a: nat): nat {
    if a + 1 == TWO64 then 0 else a + 1
  }

  lemma {:induction false} WrapIsMod(n: nat)
    ensures Wrap(n) == n % TWO64
  {
    if n >= TWO64 { WrapIsMod(n - TWO64); }
  }

  /** A difference of words is the true one while that is below 2^64. */
  lemma WrappedDistance(a: nat, b: nat)
    requires b <= a < b + TWO64
    ensures Minus(Wrap(a), Wrap(b)) == a - b
    ensures Wrap(a) == Wrap(b) <==> a == b
  {
    WrapIsMod(a);
    WrapIsMod(b);
  }

  lemma WrapNext(n: nat)
    ensures Next(Wrap(n)) == Wrap(n + 1)
  {
    WrapIsMod(n);
    WrapIsMod(n + 1);
  }

  /** The masked slot of a wrapped index is that of the unwrapped one: the capacity divides 2^64. */
  lemma SlotOfWrapped(n: nat, k: nat)
    requires k < 64
    ensures Pow2(k) > 0 && Wrap(n) % Pow2(k) == n % Pow2(k)
  {
    Pow2Positive(k);
    Pow2Positive(64 - k);
    Pow2Add(k, 64 - k);
    Pow2Is64();
    WrapIsMod(n);
    ModOfMultiple(n, Pow2(k), Pow2(64 - k));
  }

  /** Two indices less than a lap apart use different slots. */
  lemma SlotsDiffer(a: nat, b: nat, cap: nat)
    requires cap > 0 && b < a < b + cap
    ensures a % cap != b % cap
  {
    if a % cap == b % cap {
      assert a == cap * (a / cap) + a % cap && b == cap * (b / cap) + b % cap;
      assert a - b == cap * (a / cap - b / cap);
      if a / cap > b / cap {
        MulAtLeast(cap, a / cap - b / cap);
      } else if a / cap < b / cap {
        MulAtLeast(cap, b / cap - a / cap);
      }
    }
  }
}
