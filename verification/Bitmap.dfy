/**
 The occupancy bitmap: one bit per price, 64 to a word, and the scans that find the next occupied
 price above or below a point. A word is its 64 bits; the code uses only bitwise operations on it.
 */
module Bitmap {
  import opened Types

  type Word = w: seq<bool> | |w| == 64 witness seq(64, _ => false)

  const ZERO: Word := seq(64, _ => false)

  function Or(a: Word, b: Word): Word {
    seq(64, i requires 0 <= i < 64 => a[i] || b[i])
  }

  function And(a: Word, b: Word): Word {
    seq(64, i requires 0 <= i < 64 => a[i] && b[i])
  }

  function Not(a: Word): Word {
    seq(64, i requires 0 <= i < 64 => !a[i])
  }

  /** 1 << k */
  function One(k: nat): Word
    requires k < 64
  {
    seq(64, i => i == k)
  }

  /** ~0 << k */
  function OnesFrom(k: nat): Word
    requires k < 64
  {
    seq(64, i => i >= k)
  }

  /** ~0 >> (63 - k) */
  function OnesUpTo(k: nat): Word
    requires k < 64
  {
    seq(64, i => i <= k)
  }

  lemma SomeBit(w: Word)
    ensures w == ZERO || exists i | 0 <= i < 64 :: w[i]
  {
    if forall i | 0 <= i < 64 :: !w[i] { assert w == ZERO; }
  }

  /** Index of the lowest set bit. */
  method Ctz(w: Word) returns (k: nat)
    requires w != ZERO
    ensures k < 64 && w[k] && forall j | 0 <= j < k :: !w[j]
  {
    SomeBit(w);
    k := 0;
    while !w[k]
      invariant k < 64 && (forall j | 0 <= j < k :: !w[j])
      decreases 64 - k
    {
      assert exists i | 0 <= i < 64 :: w[i] && i > k;
      k := k + 1;
    }
  }

  /** Index of the highest set bit: 63 minus the number of leading zeros. */
  method HighestBit(w: Word) returns (k: nat)
    requires w != ZERO
    ensures k < 64 && w[k] && forall j | k < j < 64 :: !w[j]
  {
    SomeBit(w);
    k := 63;
    while !w[k]
      invariant k < 64 && (forall j | k < j < 64 :: !w[j])
      decreases k
    {
      assert exists i | 0 <= i < 64 :: w[i] && i < k;
      k := k - 1;
    }
  }

  predicate BitAt(words: seq<Word>, p: nat)
    requires p < 64 * |words|
  {
    words[p / 64][p % 64]
  }

  function SetBit(words: seq<Word>, p: nat): (r: seq<Word>)
    requires p < 64 * |words|
    ensures |r| == |words|
    ensures forall q: nat | q < 64 * |words| :: BitAt(r, q) == (q == p || BitAt(words, q))
  {
    words[p / 64 := Or(words[p / 64], One(p % 64))]
  }

  function ClearBit(words: seq<Word>, p: nat): (r: seq<Word>)
    requires p < 64 * |words|
    ensures |r| == |words|
    ensures forall q: nat | q < 64 * |words| :: BitAt(r, q) == (q != p && BitAt(words, q))
  {
    words[p / 64 := And(words[p / 64], Not(One(p % 64)))]
  }

  /** Lowest set price at or above `from`, NO_PRICE exactly when there is none. */
  method ScanUp(words: seq<Word>, maxPrice: nat, from: nat) returns (r: int)
    requires |words| == maxPrice / 64 + 1
    requires forall q: nat | maxPrice < q < 64 * |words| :: !BitAt(words, q)
    ensures r == NO_PRICE || (from <= r <= maxPrice && BitAt(words, r))
    ensures forall q: nat | from <= q < 64 * |words| && (r == NO_PRICE || q < r) :: !BitAt(words, q)
  {
    if from > maxPrice { return NO_PRICE; }
    var w := from / 64;
    var word: Word := And(words[w], OnesFrom(from % 64));
    while true
      invariant w < |words| && from < 64 * (w + 1)
      invariant forall i | 0 <= i < 64 :: word[i] == (64 * w + i >= from && words[w][i])
      invariant forall q: nat | from <= q < 64 * w :: !BitAt(words, q)
      decreases |words| - w
    {
      if word != ZERO {
        var k := Ctz(word);
        r := 64 * w + k;
        assert BitAt(words, r);
        forall q: nat | from <= q < r ensures !BitAt(words, q) {
          if q >= 64 * w { assert !word[q - 64 * w] && q / 64 == w && q % 64 == q - 64 * w; }
        }
        return;
      }
      forall q: nat | from <= q < 64 * (w + 1) ensures !BitAt(words, q) {
        if q >= 64 * w { assert !word[q - 64 * w] && q / 64 == w && q % 64 == q - 64 * w; }
      }
      w := w + 1;
      if w == |words| { return NO_PRICE; }
      word := words[w];
    }
  }

  /** Highest set price at or below `from`, NO_PRICE exactly when there is none or `from` is below 1. */
  method ScanDown(words: seq<Word>, maxPrice: nat, from: int) returns (r: int)
    requires |words| == maxPrice / 64 + 1 && from <= maxPrice
    ensures r == NO_PRICE || (0 <= r <= from && BitAt(words, r))
    ensures forall q: nat | q <= from && (r == NO_PRICE || q > r) :: from < 1 || !BitAt(words, q)
    ensures from < 1 ==> r == NO_PRICE
  {
    if from < 1 { return NO_PRICE; }
    var w := from / 64;
    var word: Word := And(words[w], OnesUpTo(from % 64));
    while true
      invariant 0 <= w < |words| && 64 * w <= from
      invariant forall i | 0 <= i < 64 :: word[i] == (64 * w + i <= from && words[w][i])
      invariant forall q: nat | 64 * (w + 1) <= q <= from :: !BitAt(words, q)
      decreases w
    {
      if word != ZERO {
        var k := HighestBit(word);
        r := 64 * w + k;
        assert BitAt(words, r);
        forall q: nat | r < q <= from ensures !BitAt(words, q) {
          if q < 64 * (w + 1) { assert !word[q - 64 * w] && q / 64 == w && q % 64 == q - 64 * w; }
        }
        return;
      }
      forall q: nat | 64 * w <= q <= from ensures !BitAt(words, q) {
        if q < 64 * (w + 1) { assert !word[q - 64 * w] && q / 64 == w && q % 64 == q - 64 * w; }
      }
      if w == 0 { return NO_PRICE; }
      w := w - 1;
      word := words[w];
    }
  }
}
