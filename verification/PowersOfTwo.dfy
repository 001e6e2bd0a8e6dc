/**
 Powers of two, natural alignment and the single-bit operations by which the
 buddy allocator of kernel/pmm.c names a block's buddy and its parent.
 */
module PowersOfTwo {

  /** Block orders are 0..10. */
  const MAX_ORDER: nat := 11

  function Pow2(k: nat): (r: nat)
    ensures r >= 1
  {
    if k == 0 then 1 else 2 * Pow2(k - 1)
  }

  predicate Aligned(p: nat, k: nat) {
    p % Pow2(k) == 0
  }

  /** Bit k of p is set. */
  predicate HasBit(p: nat, k: nat) {
    (p / Pow2(k)) % 2 == 1
  }

  /** p ^ (1 << k): flips bit k. */
  function FlipBit(p: nat, k: nat): (r: nat) {
    if HasBit(p, k) then
      BitIsPart(p, k);
      p - Pow2(k)
    else p + Pow2(k)
  }

  /** p & ~(1 << k): clears bit k. */
  function ClearBit(p: nat, k: nat): (r: nat) {
    if HasBit(p, k) then
      BitIsPart(p, k);
      p - Pow2(k)
    else p
  }

  lemma BitIsPart(p: nat, k: nat)
    requires HasBit(p, k)
    ensures p >= Pow2(k)
  {
    if p < Pow2(k) {
      SmallQuotient(p, Pow2(k));
    }
  }

  lemma SmallQuotient(p: nat, d: nat)
    requires p < d
    ensures p / d == 0
  {
  }

  /** Multiplying by a natural number is monotone. */
  lemma MulMonotone(a: int, b: int, d: nat)
    ensures a <= b ==> a * d <= b * d
  {
    assert (b - a) * d == b * d - a * d;
  }

  lemma DivMul(a: nat, d: nat)
    requires d > 0
    ensures (a * d) / d == a && (a * d) % d == 0
  {
    var q := (a * d) / d;
    MulMonotone(a + 1, q, d);
    MulMonotone(q + 1, a, d);
    assert (a + 1) * d == a * d + d;
    assert (q + 1) * d == q * d + d;
  }

  /** Strict order between multiples leaves room for one more unit. */
  lemma ScaledOrder(a: int, b: int, d: nat)
    requires d > 0 && a * d < b * d
    ensures a + 1 <= b && a * d + d <= b * d
  {
    MulMonotone(b, a, d);
    MulMonotone(a + 1, b, d);
    assert (a + 1) * d == a * d + d;
  }

  /** An aligned number is its quotient times the power. */
  lemma Quotient(p: nat, k: nat) returns (a: nat)
    requires Aligned(p, k)
    ensures p == a * Pow2(k) && a == p / Pow2(k)
  {
    a := p / Pow2(k);
  }

  lemma MultipleIsAligned(a: nat, k: nat)
    ensures Aligned(a * Pow2(k), k)
    ensures a * Pow2(k) / Pow2(k) == a
  {
    DivMul(a, Pow2(k));
  }

  /** Pow2(k) is a multiple of Pow2(j) for j <= k. */
  lemma {:induction false} PowerFactor(j: nat, k: nat) returns (m: nat)
    requires j <= k
    ensures Pow2(k) == m * Pow2(j) && m >= 1
    decreases k
  {
    if j == k {
      m := 1;
    } else {
      var n := PowerFactor(j, k - 1);
      m := 2 * n;
    }
  }

  lemma PowerMonotone(j: nat, k: nat)
    requires j <= k
    ensures Pow2(j) <= Pow2(k)
  {
    var m := PowerFactor(j, k);
    assert (m - 1) * Pow2(j) >= 0;
  }

  lemma AlignedDown(p: nat, j: nat, k: nat)
    requires j <= k && Aligned(p, k)
    ensures Aligned(p, j)
  {
    var a := Quotient(p, k);
    var m := PowerFactor(j, k);
    assert p == (a * m) * Pow2(j);
    MultipleIsAligned(a * m, j);
  }

  /** Two naturally aligned runs are nested or disjoint. */
  lemma Nested(p: nat, j: nat, q: nat, k: nat)
    requires j <= k && Aligned(p, j) && Aligned(q, k)
    requires p < q + Pow2(k) && q < p + Pow2(j)
    ensures q <= p && p + Pow2(j) <= q + Pow2(k)
  {
    var a := Quotient(p, j);
    var b := Quotient(q, k);
    var m := PowerFactor(j, k);
    NestedMultiples(a, b, m, Pow2(j));
  }

  lemma NestedMultiples(a: nat, b: nat, m: nat, d: nat)
    requires d > 0
    requires a * d < b * (m * d) + m * d && b * (m * d) < a * d + d
    ensures b * (m * d) <= a * d && a * d + d <= b * (m * d) + m * d
  {
    assert b * (m * d) == (b * m) * d;
    assert (b * m) * d + m * d == (b * m + m) * d;
    assert (a + 1) * d == a * d + d;
    ScaledOrder(a, b * m + m, d);
    ScaledOrder(b * m, a + 1, d);
    MulMonotone(b * m, a, d);
  }

  /** An aligned run of order k+1 splits into its two halves, each the other's buddy. */
  lemma Halves(p: nat, k: nat)
    requires Aligned(p, k + 1)
    ensures Aligned(p, k) && Aligned(p + Pow2(k), k)
    ensures !HasBit(p, k) && HasBit(p + Pow2(k), k)
    ensures FlipBit(p, k) == p + Pow2(k) && FlipBit(p + Pow2(k), k) == p
    ensures ClearBit(p, k) == p && ClearBit(p + Pow2(k), k) == p
  {
    var a := Quotient(p, k + 1);
    DoubleProduct(a, Pow2(k));
    MultipleIsAligned(2 * a, k);
    MultipleIsAligned(2 * a + 1, k);
  }

  lemma DoubleProduct(a: nat, d: nat)
    ensures a * (2 * d) == (2 * a) * d && a * (2 * d) + d == (2 * a + 1) * d
  {
  }

  /** Every aligned run is the lower or the upper half of its parent run. */
  lemma BuddyPair(p: nat, k: nat)
    requires Aligned(p, k)
    ensures Aligned(ClearBit(p, k), k + 1)
    ensures HasBit(p, k) ==> p == ClearBit(p, k) + Pow2(k) && FlipBit(p, k) == ClearBit(p, k)
    ensures !HasBit(p, k) ==> p == ClearBit(p, k) && FlipBit(p, k) == p + Pow2(k)
    ensures Aligned(FlipBit(p, k), k) && FlipBit(FlipBit(p, k), k) == p
    ensures HasBit(p, k) <==> !Aligned(p, k + 1)
  {
    var a := Quotient(p, k);
    if HasBit(p, k) {
      var h := a / 2;
      assert a == 2 * h + 1;
      BitIsPart(p, k);
      assert ClearBit(p, k) == h * Pow2(k + 1);
      MultipleIsAligned(h, k + 1);
      Halves(ClearBit(p, k), k);
      if Aligned(p, k + 1) {
        Halves(p, k);
        assert false;
      }
    } else {
      var h := a / 2;
      assert a == 2 * h;
      assert p == h * Pow2(k + 1);
      MultipleIsAligned(h, k + 1);
      Halves(p, k);
    }
  }

  /** __builtin_ctzll: the number of trailing zero bits. */
  function Ctz(n: nat): (r: nat)
    requires n > 0
    ensures Aligned(n, r) && !Aligned(n, r + 1)
  {
    if n % 2 == 1 then
      assert Pow2(1) == 2 * Pow2(0);
      0
    else
      var r := 1 + Ctz(n / 2);
      CtzStep(n / 2, r - 1);
      r
  }

  lemma CtzStep(h: nat, r: nat)
    requires Aligned(h, r) && !Aligned(h, r + 1)
    ensures Aligned(2 * h, r + 1) && !Aligned(2 * h, r + 2)
  {
    var a := Quotient(h, r);
    assert 2 * h == a * Pow2(r + 1);
    MultipleIsAligned(a, r + 1);
    if Aligned(2 * h, r + 2) {
      var b := Quotient(2 * h, r + 2);
      assert Pow2(r + 2) == 2 * Pow2(r + 1);
      assert 2 * h == 2 * (b * Pow2(r + 1));
      MultipleIsAligned(b, r + 1);
      assert false;
    }
  }

  /** 63 - __builtin_clzll: the position of the highest set bit. */
  function Log2(n: nat): (r: nat)
    requires n > 0
    ensures Pow2(r) <= n < Pow2(r + 1)
  {
    if n == 1 then 0 else 1 + Log2(n / 2)
  }
}
