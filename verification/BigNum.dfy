/** CBigNum's byte encodings: getvch/setvch and the compact form of a target (src/bignum.h). An OpenSSL MPI is the
    same byte string in big-endian order behind a length, so one little-endian encoding serves both. */
module BigNum {
  import opened Wrappers
  import opened Transactions

  function Pow256(k: nat): (p: nat)
    ensures p >= 1
  {
    if k == 0 then 1 else 256 * Pow256(k - 1)
  }

  /** getvch() of n >= 0: little-endian bytes, with a zero byte on top when the top bit would read as a sign. */
  function Vch(n: nat): (s: seq<Byte>)
    ensures n > 0 ==> |s| > 0 && s[|s| - 1] < 128
    ensures n == 0 ==> s == []
  {
    if n == 0 then [] else if n < 128 then [n] else if n < 256 then [n, 0] else [n % 256] + Vch(n / 256)
  }

  /** The unsigned value of little-endian bytes. */
  function VchValue(s: seq<Byte>): nat {
    if s == [] then 0 else s[0] + 256 * VchValue(s[1..])
  }

  lemma {:induction false} VchRoundTrip(n: nat)
    ensures VchValue(Vch(n)) == n
  {
    if n == 0 {
    } else if n < 128 {
      assert VchValue([n]) == n + 256 * VchValue([]);
    } else if n < 256 {
      assert VchValue([n, 0]) == n + 256 * VchValue([0]);
      assert VchValue([0]) == 0 + 256 * VchValue([]);
    } else {
      VchRoundTrip(n / 256);
      assert Vch(n)[1..] == Vch(n / 256);
    }
  }

  lemma {:induction false} VchLength(n: nat, k: nat)
    requires n < Pow256(k)
    ensures |Vch(n)| <= k + 1
  {
    if n >= 256 {
      VchLength(n / 256, k - 1);
    }
  }

  lemma {:induction false} PowSum(a: nat, b: nat)
    ensures Pow256(a + b) == Pow256(a) * Pow256(b)
  {
    if a > 0 {
      PowSum(a - 1, b);
      MulAssociative(256, Pow256(a - 1), Pow256(b));
    }
  }

  const TWO_TO_256: nat := 0x1_0000000000000000_0000000000000000_0000000000000000_0000000000000000

  /** A uint256 takes at most 33 bytes. */
  lemma Uint256Length(n: nat)
    requires n < TWO_TO_256
    ensures |Vch(n)| <= 33
  {
    assert Pow256(1) == 256 * Pow256(0);
    PowSum(1, 1);
    PowSum(2, 2);
    PowSum(4, 4);
    PowSum(8, 8);
    PowSum(16, 16);
    VchLength(n, 32);
  }

  /** getvch(), sign bit included. */
  function GetVch(n: int): seq<Byte> {
    if n >= 0 then Vch(n) else var s := Vch(-n); s[|s| - 1 := s[|s| - 1] + 128]
  }

  /** setvch(): the top bit of the last byte is the sign. */
  function SetVch(s: seq<Byte>): int {
    if s == [] then 0
    else if s[|s| - 1] < 128 then VchValue(s)
    else
      var magnitude: int := VchValue(s[|s| - 1 := s[|s| - 1] - 128]);
      -magnitude
  }

  /** Both encodings of a number read back as the number. */
  lemma GetSetVch(n: int)
    ensures SetVch(GetVch(n)) == n
  {
    if n >= 0 {
      VchRoundTrip(n);
    } else {
      VchRoundTrip(-n);
      SignBit(Vch(-n));
    }
  }

  lemma SignBit(s: seq<Byte>)
    requires s != [] && s[|s| - 1] < 128
    ensures SetVch(s[|s| - 1 := s[|s| - 1] + 128]) == -(VchValue(s) as int)
  {
    hide VchValue;
    var neg := s[|s| - 1 := s[|s| - 1] + 128];
    assert neg[|neg| - 1 := neg[|neg| - 1] - 128] == s;
  }

  // ------------------------------------------------------------------ compact form

  const TWO_TO_24: nat := 0x100_0000

  /** SetCompact: a size byte over three mantissa bytes; the bytes below the mantissa are zero. */
  function SetCompact(nCompact: nat): int
    requires nCompact < 0x1_0000_0000
  {
    SetVch(CompactBytes(nCompact))
  }

  /** nSize bytes, little-endian: the three given ones on top and zeros below. */
  function TopThree(nSize: nat, b0: Byte, b1: Byte, b2: Byte): (s: seq<Byte>)
    ensures |s| == nSize
  {
    seq(nSize, i requires 0 <= i < nSize =>
      if i == nSize - 1 then b0 else if i == nSize - 2 then b1 else if i == nSize - 3 then b2 else 0)
  }

  /** The byte string SetCompact hands to BN_mpi2bn, little-endian. */
  function CompactBytes(nCompact: nat): (s: seq<Byte>)
    requires nCompact < 0x1_0000_0000
    ensures |s| == nCompact / TWO_TO_24
  {
    TopThree(nCompact / TWO_TO_24, nCompact / 0x1_0000 % 0x100, nCompact / 0x100 % 0x100, nCompact % 0x100)
  }

  /** Byte k from the top, or zero. */
  function TopByte(s: seq<Byte>, k: nat): Byte {
    if k < |s| then s[|s| - 1 - k] else 0
  }

  /** GetCompact: the number of bytes over the three top bytes. */
  function GetCompact(n: int): (c: nat)
    ensures c < 0x1_0000_0000
  {
    var s := GetVch(n);
    |s| % 256 * TWO_TO_24 + TopByte(s, 0) * 0x1_0000 + TopByte(s, 1) * 0x100 + TopByte(s, 2)
  }

  /** The number with everything below its three top bytes dropped. */
  function Truncated(n: nat): nat {
    var size := |Vch(n)|;
    if size <= 3 then n else DropBelow(n, Pow256(size - 3))
  }

  /** The largest multiple of p up to n. */
  function DropBelow(n: nat, p: nat): (r: nat)
    requires p >= 1
    ensures n - p < r <= n
  {
    assert n == p * (n / p) + n % p;
    n - n % p
  }

  lemma {:induction false} SuffixValue(s: seq<Byte>, k: nat)
    requires k <= |s|
    ensures VchValue(s[k..]) == VchValue(s) / Pow256(k)
  {
    if k == 0 {
      assert s[0..] == s;
    } else {
      SuffixValue(s, k - 1);
      var r := s[k - 1..];
      assert r[1..] == s[k..];
      DivTwice(VchValue(s), Pow256(k - 1));
    }
  }

  lemma DivTwice(v: nat, p: nat)
    requires p >= 1
    ensures v / p / 256 == v / (256 * p)
  {
    var q := v / p / 256;
    assert v / p == 256 * q + v / p % 256;
    assert v == p * (v / p) + v % p;
    var d := v / p % 256;
    Regroup(p, q, d);
    RestIsSmall(p, d, v % p);
    DivUnique(v, 256 * p, q, p * d + v % p);
  }

  lemma Regroup(p: nat, q: nat, d: nat)
    ensures p * (256 * q + d) == (256 * p) * q + p * d
  {
  }

  lemma RestIsSmall(p: nat, d: nat, r: nat)
    requires d < 256 && r < p
    ensures p * d + r < 256 * p
  {
    MulLe(p, d, 255);
  }

  lemma MulLe(p: nat, a: nat, b: nat)
    requires a <= b
    ensures p * a <= p * b
  {
  }

  lemma DivUnique(v: nat, d: nat, q: nat, r: nat)
    requires d >= 1 && v == d * q + r && r < d
    ensures v / d == q && v % d == r
  {
    assert v == d * (v / d) + v % d;
    if v / d > q {
      MulLe(d, q + 1, v / d);
    } else if v / d < q {
      MulLe(d, v / d + 1, q);
    }
  }

  lemma ZerosTail(k: nat, top: seq<Byte>)
    requires k > 0
    ensures (Repeat<Byte>(0, k) + top)[0] == 0 && (Repeat<Byte>(0, k) + top)[1..] == Repeat<Byte>(0, k - 1) + top
  {
  }

  lemma {:induction false} ZerosBelow(k: nat, top: seq<Byte>)
    ensures VchValue(Repeat<Byte>(0, k) + top) == Pow256(k) * VchValue(top)
  {
    hide Repeat;
    if k == 0 {
      assert Repeat<Byte>(0, k) + top == top;
    } else {
      ZerosBelow(k - 1, top);
      ZerosTail(k, top);
      MulAssociative(256, Pow256(k - 1), VchValue(top));
    }
  }

  lemma MulAssociative(a: nat, b: nat, c: nat)
    ensures a * (b * c) == a * b * c
  {
  }

  lemma TopThreeOf(s: seq<Byte>)
    ensures TopThree(|s|, TopByte(s, 0), TopByte(s, 1), TopByte(s, 2)) == if |s| <= 3 then s else Repeat<Byte>(0, |s| - 3) + s[|s| - 3..]
  {
  }

  /** The bytes SetCompact sees when it decodes GetCompact(n): n's bytes with all but the top three zeroed. */
  lemma DecodedBytes(n: nat)
    requires |Vch(n)| <= 255
    ensures var s := Vch(n);
            CompactBytes(GetCompact(n)) == if |s| <= 3 then s else Repeat<Byte>(0, |s| - 3) + s[|s| - 3..]
  {
    hide Vch, TopThree, TopByte;
    var s := Vch(n);
    CompactFields(|s|, TopByte(s, 0), TopByte(s, 1), TopByte(s, 2));
    TopThreeOf(s);
  }

  lemma CompactFields(size: nat, b0: Byte, b1: Byte, b2: Byte)
    requires size <= 255
    ensures var c := size * TWO_TO_24 + b0 * 0x1_0000 + b1 * 0x100 + b2;
            && c < 0x1_0000_0000
            && c / TWO_TO_24 == size && c / 0x1_0000 % 0x100 == b0 && c / 0x100 % 0x100 == b1 && c % 0x100 == b2
  {
    var c := size * TWO_TO_24 + b0 * 0x1_0000 + b1 * 0x100 + b2;
    DivUnique(c, TWO_TO_24, size, b0 * 0x1_0000 + b1 * 0x100 + b2);
    DivUnique(c, 0x1_0000, size * 0x100 + b0, b1 * 0x100 + b2);
    DivUnique(size * 0x100 + b0, 0x100, size, b0);
    DivUnique(c, 0x100, size * 0x1_0000 + b0 * 0x100 + b1, b2);
    DivUnique(size * 0x1_0000 + b0 * 0x100 + b1, 0x100, size * 0x100 + b0, b1);
  }

  /** Decoding GetCompact(n) gives n truncated to its three top bytes. */
  lemma CompactTruncates(n: nat)
    requires |Vch(n)| <= 255
    ensures SetCompact(GetCompact(n)) == Truncated(n)
  {
    hide CompactBytes, GetCompact, Vch, VchValue, Pow256;
    var s := Vch(n);
    DecodedBytes(n);
    VchRoundTrip(n);
    if |s| > 3 {
      var k := |s| - 3;
      var t := Repeat<Byte>(0, k) + s[k..];
      assert t[|t| - 1] == s[|s| - 1];
      ZerosBelow(k, s[k..]);
      SuffixValue(s, k);
      assert n == Pow256(k) * (n / Pow256(k)) + n % Pow256(k);
    }
  }

  // ------------------------------------------------------------------ how much the compact form loses

  lemma {:induction false} PowMonotone(a: nat, b: nat)
    requires a <= b
    ensures Pow256(a) <= Pow256(b)
    decreases b
  {
    if a < b {
      PowMonotone(a, b - 1);
    }
  }

  /** A number of L bytes lies between 128*256^(L-2) and 128*256^(L-1). */
  lemma {:induction false} SizeBounds(n: nat)
    requires n > 0
    ensures var size := |Vch(n)|;
            && size >= 1 && n < 128 * Pow256(size - 1)
            && (size >= 2 ==> 128 * Pow256(size - 2) <= n)
  {
    if n < 256 {
      assert Pow256(1) == 256 * Pow256(0);
    } else {
      SizeBounds(n / 256);
      var size := |Vch(n)|;
      assert Pow256(size - 1) == 256 * Pow256(size - 2);
      if size >= 3 {
        assert Pow256(size - 2) == 256 * Pow256(size - 3);
      }
    }
  }

  lemma {:induction false} SizeMonotone(n: nat, m: nat)
    requires n <= m
    ensures |Vch(n)| <= |Vch(m)|
  {
    if m >= 256 && n >= 256 {
      SizeMonotone(n / 256, m / 256);
    }
  }

  lemma DropBelowMonotone(n: nat, m: nat, p: nat)
    requires p >= 1 && n <= m
    ensures DropBelow(n, p) <= DropBelow(m, p)
  {
    TruncatedProduct(n, p);
    TruncatedProduct(m, p);
    var a, b := n / p, m / p;
    if a > b {
      MulLe(p, b + 1, a);
    } else {
      MulLe(p, a, b);
    }
  }

  lemma DropBelowMultiple(p: nat, q: nat)
    requires p >= 1
    ensures DropBelow(p * q, p) == p * q
  {
    DivUnique(p * q, p, q, 0);
  }

  /** Truncation keeps the size, and what every number of that size exceeds. */
  lemma TruncatedBounds(n: nat)
    requires |Vch(n)| > 3
    ensures var size := |Vch(n)|;
            && 128 * Pow256(size - 2) <= Truncated(n) <= n
            && n - Truncated(n) < Pow256(size - 3)
            && 0x8000 * Pow256(size - 3) <= n
  {
    var size := |Vch(n)|;
    var p := Pow256(size - 3);
    SizeBounds(n);
    assert 128 * Pow256(size - 2) == p * 0x8000;
    DropBelowMultiple(p, 0x8000);
    DropBelowMonotone(p * 0x8000, n, p);
  }

  /** Decoding loses less than one part in 2^15. */
  lemma CompactLoss(n: nat)
    requires 0 < n && |Vch(n)| <= 255
    ensures var decoded := SetCompact(GetCompact(n));
            0 < decoded <= n && (n - decoded) * 0x8000 < n
  {
    CompactTruncates(n);
    if |Vch(n)| > 3 {
      TruncatedBounds(n);
    }
  }

  lemma TruncatedSize(n: nat)
    ensures |Vch(Truncated(n))| == |Vch(n)|
  {
    var size := |Vch(n)|;
    if size > 3 {
      var t := Truncated(n);
      TruncatedBounds(n);
      SizeMonotone(t, n);
      SizeBounds(t);
      if |Vch(t)| < size {
        PowMonotone(|Vch(t)| - 1, size - 2);
      }
    }
  }

  lemma {:induction false} VchValueInjective(a: seq<Byte>, b: seq<Byte>)
    requires |a| == |b| && VchValue(a) == VchValue(b)
    ensures a == b
  {
    if a != [] {
      assert a[0] == VchValue(a) % 256 == b[0];
      VchValueInjective(a[1..], b[1..]);
      assert a == [a[0]] + a[1..] && b == [b[0]] + b[1..];
    }
  }

  /** The bytes of the truncated number: the number's own, with all but the top three zeroed. */
  lemma TruncatedBytes(n: nat)
    requires |Vch(n)| > 3
    ensures var s := Vch(n); Vch(Truncated(n)) == Repeat<Byte>(0, |s| - 3) + s[|s| - 3..]
  {
    hide Vch, VchValue, Pow256;
    var s := Vch(n);
    var z := Repeat<Byte>(0, |s| - 3) + s[|s| - 3..];
    TruncatedSize(n);
    VchRoundTrip(n);
    VchRoundTrip(Truncated(n));
    ZerosBelow(|s| - 3, s[|s| - 3..]);
    SuffixValue(s, |s| - 3);
    TruncatedProduct(n, Pow256(|s| - 3));
    VchValueInjective(Vch(Truncated(n)), z);
  }

  lemma TruncatedProduct(n: nat, p: nat)
    requires p >= 1
    ensures DropBelow(n, p) == p * (n / p)
  {
    assert n == p * (n / p) + n % p;
  }

  lemma SameTopBytes(s: seq<Byte>)
    requires |s| > 3
    ensures var z := Repeat<Byte>(0, |s| - 3) + s[|s| - 3..];
            |z| == |s| && TopByte(z, 0) == TopByte(s, 0) && TopByte(z, 1) == TopByte(s, 1) && TopByte(z, 2) == TopByte(s, 2)
  {
  }

  /** Compacting what was decoded gives the same compact form: the loss happens once. */
  lemma CompactIdempotent(n: nat)
    requires |Vch(n)| <= 255
    ensures GetCompact(SetCompact(GetCompact(n))) == GetCompact(n)
  {
    hide Vch, SetCompact, TopByte;
    CompactTruncates(n);
    if |Vch(n)| > 3 {
      TruncatedBytes(n);
      SameTopBytes(Vch(n));
    }
  }

  /** Decoding keeps the order. */
  lemma CompactMonotone(n: nat, m: nat)
    requires n <= m && |Vch(m)| <= 255
    ensures |Vch(n)| <= 255 && SetCompact(GetCompact(n)) <= SetCompact(GetCompact(m))
  {
    hide SetCompact, GetCompact, Truncated, Vch;
    SizeMonotone(n, m);
    CompactTruncates(n);
    CompactTruncates(m);
    TruncatedMonotone(n, m);
  }

  lemma TruncatedMonotone(n: nat, m: nat)
    requires n <= m
    ensures Truncated(n) <= Truncated(m)
  {
    hide Vch, Pow256, DropBelow;
    SizeMonotone(n, m);
    if |Vch(m)| > 3 {
      if |Vch(n)| == |Vch(m)| {
        DropBelowMonotone(n, m, Pow256(|Vch(m)| - 3));
      } else if n > 0 {
        TruncatedBounds(m);
        SizeBounds(n);
        PowMonotone(|Vch(n)| - 1, |Vch(m)| - 2);
      } else {
        TruncatedBounds(m);
      }
    }
  }
}
