/**
  Arithmetic of power-of-two runs of pages.  A run of order k is 2^k consecutive pages
  whose first page is a multiple of 2^k.  Everything is defined by halving, so that the
  proofs need linear arithmetic only; `AlignedIsDivisible` gives the usual reading.
 */
module Dyadic {

  function Pow2(k: nat): (p: nat)
    ensures p >= 1
  {
    if k == 0 then 1 else 2 * Pow2(k - 1)
  }

  lemma {:induction false} Pow2Monotone(j: nat, k: nat)
    requires j <= k
    ensures Pow2(j) <= Pow2(k)
    ensures j < k ==> 2 * Pow2(j) <= Pow2(k)
  {
    if j < k {
      Pow2Monotone(j, k - 1);
    }
  }

  predicate Aligned(h: nat, k: nat) {
    k == 0 || (h % 2 == 0 && Aligned(h / 2, k - 1))
  }

  /** First page of the run of order k that contains page p. */
  function Base(p: nat, k: nat): nat {
    if k == 0 then p else 2 * Base(p / 2, k - 1)
  }

  lemma {:induction false} BaseBounds(p: nat, k: nat)
    ensures Base(p, k) <= p < Base(p, k) + Pow2(k)
    ensures Aligned(Base(p, k), k)
  {
    if k != 0 {
      BaseBounds(p / 2, k - 1);
    }
  }

  /** The other half of the run of order k+1 around the aligned page h. */
  function Sibling(h: nat, k: nat): nat
    requires Aligned(h, k)
  {
    if k == 0 then (if h % 2 == 0 then h + 1 else h - 1) else 2 * Sibling(h / 2, k - 1)
  }

  /** Bitwise exclusive or of two natural numbers. */
  function Xor(a: nat, b: nat): nat {
    if a == 0 && b == 0 then 0 else 2 * Xor(a / 2, b / 2) + (a + b) % 2
  }

  predicate AtLeast(lo: nat, p: nat) {
    lo <= p
  }

  ghost function Between(lo: nat, hi: nat): (r: set<nat>)
    ensures forall p: nat :: p in r <==> lo <= p < hi
  {
    set p: nat | p < hi && AtLeast(lo, p)
  }

  lemma {:induction false} BetweenSize(lo: nat, n: nat)
    ensures |Between(lo, lo + n)| == n
  {
    if n == 0 {
      assert Between(lo, lo) == {};
    } else {
      BetweenSize(lo, n - 1);
      assert Between(lo, lo + n) == Between(lo, lo + n - 1) + {lo + n - 1};
    }
  }

  /** The n pages from lo on. */
  ghost function Interval(lo: nat, n: nat): (r: set<nat>)
    ensures forall p: nat :: p in r <==> lo <= p < lo + n
    ensures |r| == n
  {
    BetweenSize(lo, n);
    Between(lo, lo + n)
  }

  /** The pages of the run of order k that starts at h. */
  ghost function Run(h: nat, k: nat): (r: set<nat>)
    ensures forall p: nat :: p in r <==> h <= p < h + Pow2(k)
    ensures |r| == Pow2(k)
  {
    Interval(h, Pow2(k))
  }

  lemma {:induction false} AlignedIsDivisible(h: nat, k: nat)
    ensures Aligned(h, k) <==> h % Pow2(k) == 0
  {
    if k != 0 {
      AlignedIsDivisible(h / 2, k - 1);
      ModHalf(h / 2, Pow2(k - 1), h % 2);
    }
  }

  lemma ModHalf(a: nat, m: nat, bit: nat)
    requires m >= 1 && bit <= 1
    ensures (2 * a + bit) % (2 * m) == 2 * (a % m) + bit
  {
    var q, r := a / m, a % m;
    assert a == m * q + r;
    assert 2 * (m * q) == (2 * m) * q;
    ModUnique(2 * a + bit, 2 * m, q, 2 * r + bit);
  }

  lemma ModUnique(a: nat, m: nat, q: nat, r: nat)
    requires r < m && a == m * q + r
    ensures a % m == r
  {
    var q', r' := a / m, a % m;
    var d := q - q';
    assert m * d == m * q - m * q';
    if d >= 1 {
      AtLeastOnce(m, d);
    } else if d <= -1 {
      AtLeastOnce(m, -d);
    }
  }

  lemma AtLeastOnce(m: nat, d: nat)
    requires d >= 1
    ensures m * d >= m
  {
    assert m * d == m + m * (d - 1);
  }

  /** A page lies in exactly one run of each order. */
  lemma {:induction false} BaseUnique(h: nat, k: nat, p: nat)
    requires Aligned(h, k) && h <= p < h + Pow2(k)
    ensures h == Base(p, k)
  {
    if k != 0 {
      BaseUnique(h / 2, k - 1, p / 2);
    }
  }

  lemma {:induction false} AlignedDown(h: nat, j: nat, k: nat)
    requires Aligned(h, k) && j <= k
    ensures Aligned(h, j)
  {
    if j != 0 {
      AlignedDown(h / 2, j - 1, k - 1);
    }
  }

  /** Runs are nested: the small run around p lies inside the large run around p. */
  lemma {:induction false} Nested(p: nat, j: nat, k: nat)
    requires j <= k
    ensures Base(p, k) <= Base(p, j)
    ensures Base(p, j) + Pow2(j) <= Base(p, k) + Pow2(k)
    ensures Base(Base(p, j), k) == Base(p, k)
  {
    if j == 0 {
      BaseBounds(p, k);
    } else {
      Nested(p / 2, j - 1, k - 1);
    }
  }

  /** The run of order k+1 around h consists of the aligned run at h and its sibling. */
  lemma {:induction false} Halves(h: nat, k: nat)
    requires Aligned(h, k)
    ensures Aligned(Sibling(h, k), k) && Sibling(Sibling(h, k), k) == h
    ensures Pow2(k + 1) == 2 * Pow2(k)
    ensures Sibling(h, k) == h + Pow2(k) || Sibling(h, k) + Pow2(k) == h
    ensures Base(h, k + 1) == Base(Sibling(h, k), k + 1) == if h < Sibling(h, k) then h else Sibling(h, k)
    ensures Aligned(Base(h, k + 1), k + 1)
  {
    BaseBounds(h, k + 1);
    if k != 0 {
      Halves(h / 2, k - 1);
      HalvesUp(h, k);
    }
  }

  lemma HalvesUp(h: nat, k: nat)
    requires k > 0 && Aligned(h, k) && Aligned(Sibling(h / 2, k - 1), k - 1)
    ensures Aligned(Sibling(h, k), k) && Sibling(h, k) == 2 * Sibling(h / 2, k - 1)
    ensures Base(h, k + 1) == 2 * Base(h / 2, k)
    ensures Base(Sibling(h, k), k + 1) == 2 * Base(Sibling(h / 2, k - 1), k)
    ensures Sibling(Sibling(h, k), k) == 2 * Sibling(Sibling(h / 2, k - 1), k - 1)
  {
    assert 2 * Sibling(h / 2, k - 1) / 2 == Sibling(h / 2, k - 1);
  }

  lemma {:induction false} XorZero(a: nat)
    ensures Xor(a, 0) == a
  {
    if a != 0 {
      XorZero(a / 2);
    }
  }

  lemma XorStep(a: nat, b: nat)
    requires a % 2 == 0
    ensures Xor(a, 2 * b) == 2 * Xor(a / 2, b)
  {
    assert 2 * b / 2 == b;
    assert (a + 2 * b) % 2 == 0;
  }

  /** Flipping bit k of a page number aligned to 2^k gives the sibling half. */
  lemma {:induction false} XorIsSibling(h: nat, k: nat)
    requires Aligned(h, k)
    ensures Xor(h, Pow2(k)) == Sibling(h, k)
  {
    if k == 0 {
      XorZero(h / 2);
      assert Xor(h, 1) == 2 * Xor(h / 2, 0) + (h + 1) % 2;
    } else {
      XorStep(h, Pow2(k - 1));
      XorIsSibling(h / 2, k - 1);
    }
  }
}
