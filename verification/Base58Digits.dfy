/** Numbers in other bases and the Base58 alphabet (src/base58.h). */
module Base58Digits {
  import opened Wrappers
  import opened BigNum

  // ------------------------------------------------------------------ numbers in any base

  /** The digits of n, least significant first. */
  function Digits(b: nat, n: nat): (d: seq<nat>)
    requires b >= 2
  {
    if n == 0 then []
    else
      QuotientSmaller(b, n);
      [n % b] + Digits(b, n / b)
  }

  lemma QuotientSmaller(b: nat, n: nat)
    requires b >= 2 && n > 0
    ensures n / b < n
  {
    var q := n / b;
    assert n == b * q + n % b;
    MulLe(q, 2, b);
    assert q * b == b * q;
  }

  function Num(b: nat, d: seq<nat>): nat {
    if d == [] then 0 else d[0] + b * Num(b, d[1..])
  }

  predicate DigitsOf(b: nat, d: seq<nat>) {
    forall i :: 0 <= i < |d| ==> d[i] < b
  }

  /** No zero digit on top. */
  predicate Minimal(d: seq<nat>) {
    d != [] ==> d[|d| - 1] != 0
  }

  lemma {:induction false} NumOfDigits(b: nat, n: nat)
    requires b >= 2
    ensures Num(b, Digits(b, n)) == n && DigitsOf(b, Digits(b, n)) && Minimal(Digits(b, n))
  {
    if n > 0 {
      var q, r := DigitsStep(b, n);
      hide Digits;
      NumOfDigits(b, q);
      assert ([r] + Digits(b, q))[1..] == Digits(b, q);
    }
  }

  lemma DigitsStep(b: nat, n: nat) returns (q: nat, r: nat)
    requires b >= 2 && n > 0
    ensures q < n && r < b && n == b * q + r && Digits(b, n) == [r] + Digits(b, q) && (Digits(b, q) == [] ==> r != 0)
  {
    q, r := n / b, n % b;
    QuotientSmaller(b, n);
    assert n == b * q + r;
    if q == 0 {
      assert b * q == 0;
    }
  }

  lemma {:induction false} DigitsOfNum(b: nat, d: seq<nat>)
    requires b >= 2 && DigitsOf(b, d) && Minimal(d)
    ensures Digits(b, Num(b, d)) == d
    ensures d != [] ==> Num(b, d) > 0
  {
    if d != [] {
      DigitsOfNum(b, d[1..]);
      var m := Num(b, d[1..]);
      DivUnique(d[0] + b * m, b, m, d[0]);
      if d[1..] == [] {
        assert m == 0 && d[0] != 0;
      } else {
        MulLe(b, 1, m);
      }
      assert d == [d[0]] + d[1..];
    }
  }

  lemma {:induction false} NumWithZeros(b: nat, d: seq<nat>, k: nat)
    ensures Num(b, d + Repeat<nat>(0, k)) == Num(b, d)
    decreases |d| + k
  {
    if d != [] {
      assert (d + Repeat<nat>(0, k))[1..] == d[1..] + Repeat<nat>(0, k);
      NumWithZeros(b, d[1..], k);
    } else if k > 0 {
      assert d + Repeat<nat>(0, k) == Repeat<nat>(0, k) && Repeat<nat>(0, k)[1..] == [] + Repeat<nat>(0, k - 1);
      NumWithZeros(b, [], k - 1);
    } else {
      assert d + Repeat<nat>(0, k) == d;
    }
  }

  // ------------------------------------------------------------------ changing the base

  /** How many zeros a list starts with. */
  function Leading(v: seq<nat>): (z: nat)
    ensures z <= |v| && (forall i :: 0 <= i < z ==> v[i] == 0) && (z < |v| ==> v[z] != 0)
  {
    if v == [] || v[0] != 0 then 0 else 1 + Leading(v[1..])
  }

  /** The same number in another base, leading zeros kept; the digits most significant first. */
  function Convert(b: nat, c: nat, v: seq<nat>): seq<nat>
    requires c >= 2
  {
    Repeat<nat>(0, Leading(v)) + Reverse(Digits(c, Num(b, Reverse(v))))
  }

  lemma {:induction false} LeadingIs(z: nat, w: seq<nat>)
    requires w == [] || w[0] != 0
    ensures Leading(Repeat<nat>(0, z) + w) == z
  {
    var v := Repeat<nat>(0, z) + w;
    if z > 0 {
      assert v[1..] == Repeat<nat>(0, z - 1) + w;
      LeadingIs(z - 1, w);
    } else {
      assert v == w;
    }
  }

  lemma ReverseTwice<T>(s: seq<T>)
    ensures Reverse(Reverse(s)) == s
  {
  }

  lemma ReverseAppend(z: nat, w: seq<nat>)
    ensures Reverse(Repeat<nat>(0, z) + w) == Reverse(w) + Repeat<nat>(0, z)
  {
  }

  /** A digit list is its leading zeros and a minimal rest. */
  lemma SplitLeading(b: nat, v: seq<nat>) returns (w: seq<nat>)
    requires DigitsOf(b, v)
    ensures v == Repeat<nat>(0, Leading(v)) + w && (w == [] || w[0] != 0) && DigitsOf(b, Reverse(w)) && Minimal(Reverse(w))
  {
    w := v[Leading(v)..];
  }

  /** Converting to another base and back changes nothing. */
  lemma ConvertBack(b: nat, c: nat, v: seq<nat>)
    requires b >= 2 && c >= 2 && DigitsOf(b, v)
    ensures Convert(c, b, Convert(b, c, v)) == v && DigitsOf(c, Convert(b, c, v))
  {
    var z := Leading(v);
    var w := SplitLeading(b, v);
    hide Leading, Repeat, Reverse, Digits, Num, Convert, DigitsOf, Minimal;
    var n := Num(b, Reverse(w));
    var u := Reverse(Digits(c, n));
    ConvertIs(b, c, z, w);
    NumOfDigits(c, n);
    ReverseTwice(Digits(c, n));
    FrontOfMinimal(c, Digits(c, n));
    ConvertIs(c, b, z, u);
    DigitsOfNum(b, Reverse(w));
    ReverseTwice(w);
    DigitsWithZeros(c, z, u);
  }

  lemma ConvertIs(b: nat, c: nat, z: nat, w: seq<nat>)
    requires c >= 2 && (w == [] || w[0] != 0)
    ensures Convert(b, c, Repeat<nat>(0, z) + w) == Repeat<nat>(0, z) + Reverse(Digits(c, Num(b, Reverse(w))))
  {
    hide Repeat, Reverse, Digits, Num;
    LeadingIs(z, w);
    ReverseAppend(z, w);
    NumWithZeros(b, Reverse(w), z);
  }

  lemma FrontOfMinimal(b: nat, d: seq<nat>)
    requires Minimal(d) && DigitsOf(b, d)
    ensures (Reverse(d) == [] || Reverse(d)[0] != 0) && DigitsOf(b, Reverse(d))
  {
  }

  lemma DigitsWithZeros(b: nat, z: nat, u: seq<nat>)
    requires DigitsOf(b, u) && b > 0
    ensures DigitsOf(b, Repeat<nat>(0, z) + u)
  {
  }

  // ------------------------------------------------------------------ the alphabet

  const BASE58_CHARS := "123456789" + "ABCDEFGH" + "JKLMN" + "PQRSTUVWXYZ" + "abcdefghijk" + "mnopqrstuvwxyz"

  /** strchr in the alphabet: the place of a character, or the length if it has none. */
  function IndexOf(alphabet: string, c: char): (i: nat)
    ensures i <= |alphabet| && (i < |alphabet| ==> alphabet[i] == c)
    ensures forall j :: 0 <= j < i ==> alphabet[j] != c
  {
    if alphabet == "" || alphabet[0] == c then 0 else 1 + IndexOf(alphabet[1..], c)
  }

  predicate Ordered(alphabet: string) {
    forall i, j :: 0 <= i < j < |alphabet| ==> alphabet[i] < alphabet[j]
  }

  /** Consecutive characters, the first one given. */
  predicate Run(s: string, first: char) {
    forall i :: 0 <= i < |s| ==> s[i] as int == first as int + i
  }

  lemma RunsAreOrdered()
    ensures Run("123456789", '1') && Run("ABCDEFGH", 'A') && Run("JKLMN", 'J') && Run("PQRSTUVWXYZ", 'P')
    ensures Run("abcdefghijk", 'a') && Run("mnopqrstuvwxyz", 'm')
  {
  }

  lemma JoinOrdered(a: string, b: string)
    requires Ordered(a) && Ordered(b) && a != "" && b != "" && a[|a| - 1] < b[0]
    ensures Ordered(a + b) && (a + b)[|a + b| - 1] == b[|b| - 1]
  {
    assert forall i :: 0 <= i < |a| ==> a[i] <= a[|a| - 1];
    assert forall j :: 0 <= j < |b| ==> b[0] <= b[j];
  }

  lemma AlphabetIsOrdered()
    ensures |BASE58_CHARS| == 58 && Ordered(BASE58_CHARS) && BASE58_CHARS[0] == '1'
  {
    RunsAreOrdered();
    RunOrdered("123456789", '1');
    JoinRun("123456789", "ABCDEFGH", 'A');
    JoinRun("123456789" + "ABCDEFGH", "JKLMN", 'J');
    JoinRun("123456789" + "ABCDEFGH" + "JKLMN", "PQRSTUVWXYZ", 'P');
    JoinRun("123456789" + "ABCDEFGH" + "JKLMN" + "PQRSTUVWXYZ", "abcdefghijk", 'a');
    JoinRun("123456789" + "ABCDEFGH" + "JKLMN" + "PQRSTUVWXYZ" + "abcdefghijk", "mnopqrstuvwxyz", 'm');
  }

  lemma RunOrdered(s: string, first: char)
    requires Run(s, first)
    ensures Ordered(s)
  {
  }

  lemma JoinRun(a: string, b: string, first: char)
    requires Ordered(a) && Run(b, first) && a != "" && b != "" && a[|a| - 1] < first
    ensures Ordered(a + b)
  {
    RunOrdered(b, first);
    JoinOrdered(a, b);
  }
}
