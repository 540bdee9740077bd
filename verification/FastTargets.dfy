/** The targets of proof-of-work blocks that come one second apart, starting from the main network's limit, and the trust such
    blocks carry (src/main.cpp, src/bignum.h). */
module FastTargets {
  import opened Transactions
  import opened BlockTree
  import opened BigNum
  import opened Targets

  /** A target whose three top bytes are m. */
  function Target(m: nat): nat {
    m * Pow256(27)
  }

  function Bits(m: nat): (nBits: nat)
    ensures nBits < 0x1_0000_0000
  {
    GetCompact(Target(m))
  }

  /** Three bytes without a sign bit. */
  predicate Mantissa(m: nat) {
    0x8000 <= m < 0x80_0000
  }

  lemma Size(n: nat)
    requires 0x8000 * Pow256(27) <= n < 0x80_0000 * Pow256(27)
    ensures |Vch(n)| == 30
  {
    Powers();
    hide Pow256, Vch;
    SizeBounds(n);
    var size := |Vch(n)|;
    if size < 30 {
      PowMonotone(size - 1, 28);
    } else if size > 30 {
      PowMonotone(29, size - 2);
    }
  }

  lemma Powers()
    ensures Pow256(28) == 256 * Pow256(27) && Pow256(29) == 256 * Pow256(28)
  {
    PowerStep(27);
    PowerStep(28);
  }

  lemma PowerStep(k: nat)
    ensures Pow256(k + 1) == 256 * Pow256(k)
  {
  }

  /** Encoding a number of that size keeps its three top bytes. */
  lemma BitsOf(n: nat)
    requires 0x8000 * Pow256(27) <= n < 0x80_0000 * Pow256(27)
    ensures GetCompact(n) == Bits(n / Pow256(27)) && SetCompact(GetCompact(n)) == Target(n / Pow256(27))
  {
    hide Pow256, Vch, GetCompact, SetCompact, Truncated;
    Size(n);
    CompactTruncates(n);
    CompactIdempotent(n);
    TopThreeKept(n, 27);
  }

  lemma TopThreeKept(n: nat, k: nat)
    requires |Vch(n)| == k + 3 && k > 0
    ensures Truncated(n) == n / Pow256(k) * Pow256(k)
  {
    hide Pow256, Vch;
    TruncatedProduct(n, Pow256(k));
  }

  lemma BitsDecode(m: nat)
    requires Mantissa(m)
    ensures SetCompact(Bits(m)) == Target(m) && Target(m) / Pow256(27) == m
  {
    hide Pow256, GetCompact, SetCompact;
    var p := Pow256(27);
    MulLe(p, 0x8000, m);
    MulLe(p, m + 1, 0x80_0000);
    DivUnique(m * p, p, m, 0);
    BitsOf(Target(m));
  }

  lemma Whole()
    ensures TWO_TO_256 == 0x100_0000_0000 * Pow256(27)
  {
    assert Pow256(1) == 256 * Pow256(0);
    PowSum(1, 1);
    PowSum(2, 2);
    PowSum(4, 4);
    PowSum(8, 8);
    PowSum(16, 8);
    PowSum(24, 2);
    PowSum(26, 1);
  }

  /** The main network's limit, ~uint256(0) >> 20. */
  lemma LimitBits(limit: nat)
    requires limit == (TWO_TO_256 - 1) / 0x10_0000
    ensures 0 < limit < TWO_TO_256 && GetCompact(limit) == Bits(0xF_FFFF) && Target(0xF_FFFF) <= limit
  {
    Whole();
    hide Pow256, GetCompact, SetCompact;
    var p := Pow256(27);
    DivUnique(TWO_TO_256 - 1, 0x10_0000, 0x10_0000 * p - 1, 0xF_FFFF);
    DivUnique(limit, p, 0xF_FFFF, p - 1);
    BitsOf(limit);
  }

  /** The trust of a block of this target. */
  lemma TrustIs(m: nat)
    requires Mantissa(m)
    ensures BlockTrust(Bits(m)) <= 0x100_0000_0000 / m <= BlockTrust(Bits(m)) + 1
  {
    Whole();
    BitsDecode(m);
    hide Pow256, GetCompact, SetCompact, Bits;
    TargetFits(m);
    TrustPositive(Bits(m));
    Share(m, Pow256(27));
  }

  lemma TargetFits(m: nat)
    requires Mantissa(m)
    ensures 0 < Target(m) < TWO_TO_256
  {
    Whole();
    hide Pow256;
    MulLe(Pow256(27), 1, m);
    MulLe(Pow256(27), m, 0x80_0000);
  }

  lemma Share(m: nat, p: nat)
    requires Mantissa(m) && p >= 0x100_0000_0000
    ensures var all: nat := 0x100_0000_0000; all * p / (m * p + 1) <= all / m <= all * p / (m * p + 1) + 1
  {
    var all: nat := 0x100_0000_0000;
    var q, d := all / m, m * p + 1;
    var r := all * p / d;
    AtMost(all, m, q, p);
    AtLeast(all, m, r, p);
    DivBelow(all * p, d, if q == 0 then 0 else q - 1);
  }

  /** One less than the quotient still fits. */
  lemma AtMost(all: nat, m: nat, q: nat, p: nat)
    requires m > 0 && q == all / m && p >= all
    ensures q > 0 ==> (q - 1) * (m * p + 1) <= all * p
  {
    assert q * m <= all;
    if q > 0 {
      assert q <= q * m;
      assert (q - 1) * (m * p + 1) == q * m * p - m * p + q - 1;
      MulLe(p, q * m, all);
      MulLe(p, 1, m);
    }
  }

  lemma AtLeast(all: nat, m: nat, r: nat, p: nat)
    requires m > 0 && p > 0 && r == all * p / (m * p + 1)
    ensures r <= all / m
  {
    var d := m * p + 1;
    assert r * d <= all * p;
    assert r * d == r * m * p + r;
    if r * m > all {
      MulLe(p, all + 1, r * m);
    }
    DivBelow(all, m, r);
  }

  lemma DivBelow(a: nat, d: nat, k: nat)
    requires d > 0 && k * d <= a
    ensures k <= a / d
  {
    assert a == d * (a / d) + a % d;
    if a / d < k {
      MulLe(d, a / d + 1, k);
    }
  }

  // ------------------------------------------------------------------ one second apart

  /** The mantissa of block i of a row of blocks that come a second after one another. */
  function Faster(i: nat): nat {
    if i <= 1 then 0xF_FFFF else Faster(i - 1) * 3542 / 3660
  }

  lemma FasterAre()
    ensures Faster(1) == 1048575 && Faster(2) == 1014768 && Faster(3) == 982051 && Faster(4) == 950389 && Faster(5) == 919748
    ensures Faster(6) == 890094 && Faster(7) == 861396 && Faster(8) == 833624 && Faster(9) == 806747
  {
  }

  lemma FasterIsMantissa(i: nat)
    requires i <= 9
    ensures Mantissa(Faster(i)) && Faster(i) <= 0xF_FFFF
  {
    FasterAre();
    assert Faster(0) == 0xF_FFFF;
  }

  /** A second after block i the required target is that of block i + 1. */
  lemma FasterRetarget(i: nat)
    requires 1 <= i < 9
    ensures var target := Retarget(Target(Faster(i)), 1);
            0 < target <= Target(0xF_FFFF) && GetCompact(target) == Bits(Faster(i + 1))
  {
    FasterIsMantissa(i);
    FasterIsMantissa(i + 1);
    hide Pow256, GetCompact, Bits, Faster, Target, Mantissa;
    RetargetIs(Faster(i));
    FasterStep(i);
  }

  lemma FasterStep(i: nat)
    requires 1 <= i
    ensures Faster(i + 1) == Faster(i) * 3542 / 3660
  {
  }

  lemma RetargetIs(m: nat)
    requires Mantissa(m) && m <= 0xF_FFFF && Mantissa(m * 3542 / 3660)
    ensures var target := Retarget(Target(m), 1);
            0 < target <= Target(0xF_FFFF) && GetCompact(target) == Bits(m * 3542 / 3660)
  {
    hide Pow256, GetCompact, Bits;
    var p, k := Pow256(27), m * 3542 / 3660;
    assert (INTERVAL - 1) * TARGET_SPACING + 1 + 1 == 3542 && (INTERVAL + 1) * TARGET_SPACING == 3660;
    var target := m * p * 3542 / 3660;
    assert Retarget(Target(m), 1) == target;
    ScaleDown(m * 3542, p);
    assert m * 3542 * p == m * p * 3542;
    MulLe(p, k + 1, 0x80_0000);
    MulLe(p, 0x8000, k);
    MulLe(p, m, 0xF_FFFF);
    BitsOf(target);
  }

  /** Whether one divides before or after multiplying with p makes no difference to the multiples of p. */
  lemma ScaleDown(x: nat, p: nat)
    requires p > 0
    ensures var target, k := x * p / 3660, x / 3660; target / p == k && k * p <= target < (k + 1) * p
  {
    var k, kp, xp := x / 3660, (x / 3660) * p, x * p;
    MulLe(p, 3660 * k, x);
    MulLe(p, x + 1, 3660 * (k + 1));
    Regrouped(3660, k, p);
    Regrouped(3660, k + 1, p);
    assert (k + 1) * p == kp + p;
    assert 3660 * kp <= xp && xp + p <= 3660 * (kp + p);
    DivUnique(xp / 3660, p, k, xp / 3660 - kp);
  }

  lemma Regrouped(c: nat, k: nat, p: nat)
    ensures p * (c * k) == c * (k * p)
  {
  }

  /** The first blocks have the limit as target, and so has one that follows two on-time blocks of that target. */
  lemma RequiredOnTime(t: Tree, h: Hash, limit: nat)
    requires t.Valid() && CompactBits(t) && h in t.nodes && limit == (TWO_TO_256 - 1) / 0x10_0000
    requires var two := LastTwo(t, h, false);
             two.Some? ==> ActualSpacing(t, two.value) == TARGET_SPACING && t.nodes[two.value.0].block.nBits == Bits(0xF_FFFF)
    ensures RequiredBits(t, h, false, limit) == Bits(0xF_FFFF)
  {
    hide GetCompact, SetCompact, LastTwo, Retarget, Target, Bits;
    LimitBits(limit);
    BitsDecode(0xF_FFFF);
    TargetFits(0xF_FFFF);
    BitsEncode(0xF_FFFF);
    match LastTwo(t, h, false) {
      case None =>
      case Some(two) =>
        OnTimeKeepsTarget(t, h, false, limit, two);
    }
  }

  lemma BitsEncode(m: nat)
    ensures Bits(m) == GetCompact(Target(m))
  {
  }

  /** One that follows block i of the row, which came a second after the block below, continues the row. */
  lemma RequiredFast(t: Tree, h: Hash, limit: nat, i: nat)
    requires t.Valid() && CompactBits(t) && h in t.nodes && limit == (TWO_TO_256 - 1) / 0x10_0000 && 1 <= i < 9
    requires var two := LastTwo(t, h, false);
             two.Some? && ActualSpacing(t, two.value) == 1 && t.nodes[two.value.0].block.nBits == Bits(Faster(i))
    ensures RequiredBits(t, h, false, limit) == Bits(Faster(i + 1))
  {
    hide GetCompact, SetCompact, LastTwo, Retarget, Target, Bits, Faster;
    LimitBits(limit);
    FasterIsMantissa(i);
    BitsDecode(Faster(i));
    FasterRetarget(i);
  }

  function Weight(i: nat): nat {
    BlockTrust(Bits(Faster(i)))
  }

  /** The trust of the first i blocks of the row. */
  function RowTrust(i: nat): nat {
    if i == 0 then 0 else RowTrust(i - 1) + Weight(i)
  }

  lemma {:induction false} RowTrustGrows(i: nat, j: nat)
    requires i <= j
    ensures RowTrust(i) <= RowTrust(j)
    decreases j
  {
    hide Weight;
    if i < j {
      RowTrustGrows(i, j - 1);
    }
  }

  lemma WeightIs(i: nat)
    requires i <= 9
    ensures Faster(i) > 0 && Weight(i) <= 0x100_0000_0000 / Faster(i) <= Weight(i) + 1
  {
    FasterIsMantissa(i);
    hide Faster, BlockTrust, Bits;
    TrustIs(Faster(i));
  }

  lemma WeightsAre()
    ensures 1048576 <= Weight(1) <= 1048577 && 1083509 <= Weight(2) <= 1083510 && 1119606 <= Weight(3) <= 1119607
    ensures 1156905 <= Weight(4) <= 1156906 && 1195447 <= Weight(5) <= 1195448 && 1235274 <= Weight(6) <= 1235275
    ensures 1276428 <= Weight(7) <= 1276429 && 1318952 <= Weight(8) <= 1318953 && 1362894 <= Weight(9) <= 1362895
  {
    FasterAre();
    hide Faster, Weight;
    WeightIs(1);
    WeightIs(2);
    WeightIs(3);
    WeightIs(4);
    WeightIs(5);
    WeightIs(6);
    WeightIs(7);
    WeightIs(8);
    WeightIs(9);
  }

  /** Nine fast blocks carry more trust than ten at the limit, eight do not; and less than eleven. */
  lemma NineBeatTen()
    ensures 0 < Weight(1) && RowTrust(8) <= 10 * Weight(1) < RowTrust(9) < 11 * Weight(1)
  {
    WeightsAre();
    hide Weight;
    assert RowTrust(4) == Weight(1) + Weight(2) + Weight(3) + Weight(4);
    assert RowTrust(8) == RowTrust(4) + Weight(5) + Weight(6) + Weight(7) + Weight(8);
  }
}
