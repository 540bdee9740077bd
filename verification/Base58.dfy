/** EncodeBase58 and DecodeBase58 (src/base58.h). */
module Base58 {
  import opened Wrappers
  import opened Transactions
  import opened BigNum
  import opened Base58Digits

  /** isspace in the C locale. */
  predicate IsSpace(c: char) {
    c == ' ' || 9 <= c as int <= 13
  }

  predicate InAlphabet(c: char) {
    IndexOf(BASE58_CHARS, c) < |BASE58_CHARS|
  }

  function Values(s: string): (v: seq<nat>)
    ensures |v| == |s|
  {
    if s == "" then [] else Values(s[..|s| - 1]) + [IndexOf(BASE58_CHARS, s[|s| - 1])]
  }

  function Chars(d: seq<nat>): (s: string)
    requires DigitsOf(|BASE58_CHARS|, d)
    ensures |s| == |d|
  {
    if d == [] then "" else Chars(d[..|d| - 1]) + [BASE58_CHARS[d[|d| - 1]]]
  }

  function Nats(v: seq<Byte>): (d: seq<nat>)
    ensures |d| == |v| && forall i :: 0 <= i < |v| ==> d[i] == v[i]
  {
    seq(|v|, i requires 0 <= i < |v| => v[i])
  }

  function Bytes(d: seq<nat>): (v: seq<Byte>)
    requires DigitsOf(256, d)
    ensures |v| == |d| && forall i :: 0 <= i < |v| ==> v[i] == d[i]
  {
    seq(|d|, i requires 0 <= i < |d| => d[i])
  }

  lemma AlphabetSize()
    ensures |BASE58_CHARS| == 58
  {
  }

  /** The text of a byte string: the same number in base 58, leading zeros kept. */
  function Encode(v: seq<Byte>): string {
    ConvertBack(256, |BASE58_CHARS|, Nats(v));
    Chars(Convert(256, |BASE58_CHARS|, Nats(v)))
  }

  /** The text without leading spaces. */
  function SkipSpaces(s: string): string {
    if s != "" && IsSpace(s[0]) then SkipSpaces(s[1..]) else s
  }

  /** How many characters of the alphabet the text starts with. */
  function Span(s: string): (n: nat)
    ensures n <= |s| && (forall i :: 0 <= i < n ==> InAlphabet(s[i])) && (n < |s| ==> !InAlphabet(s[n]))
  {
    if s != "" && InAlphabet(s[0]) then 1 + Span(s[1..]) else 0
  }

  /** Characters of the alphabet between spaces. */
  predicate Decodable(psz: string) {
    var s := SkipSpaces(psz);
    SkipSpaces(s[Span(s)..]) == ""
  }

  function Decode(psz: string): seq<Byte> {
    var s := SkipSpaces(psz);
    var d := Values(s[..Span(s)]);
    ValuesAre(s[..Span(s)]);
    ConvertBack(|BASE58_CHARS|, 256, d);
    Bytes(Convert(|BASE58_CHARS|, 256, d))
  }

  lemma {:induction false} ValuesAre(s: string)
    requires forall i :: 0 <= i < |s| ==> InAlphabet(s[i])
    ensures DigitsOf(|BASE58_CHARS|, Values(s)) && Chars(Values(s)) == s
  {
    hide IndexOf;
    if s != "" {
      var front := s[..|s| - 1];
      ValuesAre(front);
      assert InAlphabet(s[|s| - 1]);
      assert Values(s) == Values(front) + [IndexOf(BASE58_CHARS, s[|s| - 1])];
      assert Values(s)[..|s| - 1] == Values(front);
      assert s == front + [s[|s| - 1]];
    }
  }

  lemma {:induction false} CharsAre(d: seq<nat>)
    requires DigitsOf(|BASE58_CHARS|, d)
    ensures Values(Chars(d)) == d && forall i :: 0 <= i < |d| ==> InAlphabet(Chars(d)[i])
  {
    hide IndexOf, InAlphabet;
    if d != [] {
      var front, last := d[..|d| - 1], d[|d| - 1];
      CharsAre(front);
      IndexOfChar(last);
      assert Chars(d)[..|d| - 1] == Chars(front) && Chars(d)[|d| - 1] == BASE58_CHARS[last];
      forall i | 0 <= i < |d|
        ensures InAlphabet(Chars(d)[i])
      {
        assert i < |front| ==> Chars(d)[i] == Chars(front)[i];
      }
    }
  }

  lemma IndexOfChar(i: nat)
    requires i < |BASE58_CHARS|
    ensures IndexOf(BASE58_CHARS, BASE58_CHARS[i]) == i && InAlphabet(BASE58_CHARS[i])
  {
    AlphabetIsOrdered();
    var j := IndexOf(BASE58_CHARS, BASE58_CHARS[i]);
    assert j <= i;
    OrderedDistinct(BASE58_CHARS, i, j);
  }

  lemma OrderedDistinct(s: string, i: nat, j: nat)
    requires Ordered(s) && i < |s| && j < |s| && s[i] == s[j]
    ensures i == j
  {
  }

  lemma {:induction false} NoSpaceInAlphabet(c: char)
    requires InAlphabet(c)
    ensures !IsSpace(c)
  {
    AlphabetIsOrdered();
    var i := IndexOf(BASE58_CHARS, c);
    assert BASE58_CHARS[0] == '1';
    assert i > 0 ==> BASE58_CHARS[0] < BASE58_CHARS[i];
  }

  lemma SpanOfAlphabet(s: string)
    requires forall i :: 0 <= i < |s| ==> InAlphabet(s[i])
    ensures SkipSpaces(s) == s && Span(s) == |s| && s[..Span(s)] == s && Decodable(s)
  {
    if s != "" {
      NoSpaceInAlphabet(s[0]);
    }
    assert s[|s|..] == "";
  }

  /** Decoding what was encoded gives the bytes back, leading zeros included. */
  lemma DecodeOfEncode(v: seq<Byte>)
    ensures Decodable(Encode(v)) && Decode(Encode(v)) == v
  {
    hide Convert, Chars, Values, InAlphabet, IndexOf;
    var d := Convert(256, |BASE58_CHARS|, Nats(v));
    ConvertBack(256, |BASE58_CHARS|, Nats(v));
    CharsAre(d);
    SpanOfAlphabet(Chars(d));
    assert Bytes(Nats(v)) == v;
  }

  /** Encoding what was decoded gives the text back: there is one text for every byte string. */
  lemma EncodeOfDecode(s: string)
    requires forall i :: 0 <= i < |s| ==> InAlphabet(s[i])
    ensures Decodable(s) && Encode(Decode(s)) == s
  {
    hide Convert, Chars, Values, InAlphabet, IndexOf;
    SpanOfAlphabet(s);
    ValuesAre(s);
    ConvertBack(|BASE58_CHARS|, 256, Values(s));
    assert Nats(Bytes(Convert(|BASE58_CHARS|, 256, Values(s)))) == Convert(|BASE58_CHARS|, 256, Values(s));
  }

  // ------------------------------------------------------------------ the methods

  lemma {:induction false} ValueIsNum(s: seq<Byte>)
    ensures VchValue(s) == Num(256, Nats(s))
  {
    if s != [] {
      ValueIsNum(s[1..]);
      assert Nats(s)[1..] == Nats(s[1..]);
    }
  }

  /** getvch() without its sign byte. */
  function TrimSign(s: seq<Byte>): seq<Byte> {
    if |s| >= 2 && s[|s| - 1] == 0 && s[|s| - 2] >= 128 then s[..|s| - 1] else s
  }

  lemma {:induction false} TrimmedIsDigits(n: nat)
    ensures Nats(TrimSign(Vch(n))) == Digits(256, n)
  {
    if n == 0 {
    } else if n < 256 {
      SmallDigits(n);
      assert n < 128 ==> Vch(n) == [n];
    } else {
      hide Vch, Digits, TrimSign;
      var q, b := LastByte(n);
      TrimmedIsDigits(q);
      VchTop(q);
      TrimKeepsFront(b, Vch(q));
      assert Nats([b] + TrimSign(Vch(q))) == [b] + Nats(TrimSign(Vch(q)));
    }
  }

  lemma LastByte(n: nat) returns (q: nat, b: Byte)
    requires n >= 256
    ensures 0 < q < n && Vch(n) == [b] + Vch(q) && Digits(256, n) == [b] + Digits(256, q)
  {
    q, b := n / 256, n % 256;
  }

  lemma SmallDigits(n: nat)
    requires 0 < n < 256
    ensures Digits(256, n) == [n]
  {
    assert Digits(256, n) == [n % 256] + Digits(256, 0);
  }

  lemma TrimKeepsFront(b: Byte, s: seq<Byte>)
    requires s != [] && (|s| == 1 ==> s[0] != 0)
    ensures TrimSign([b] + s) == [b] + TrimSign(s)
  {
  }

  /** A single byte of a positive number is not zero. */
  lemma {:induction false} VchTop(n: nat)
    requires n > 0
    ensures |Vch(n)| == 1 ==> Vch(n)[0] != 0
  {
  }

  lemma NumOfReversed(v: seq<Byte>)
    ensures SetVch(Reverse(v) + [0]) == Num(256, Reverse(Nats(v)))
  {
    var tmp := Reverse(v) + [0];
    ValueIsNum(tmp);
    assert Nats(tmp) == Reverse(Nats(v)) + Repeat<nat>(0, 1);
    NumWithZeros(256, Reverse(Nats(v)), 1);
  }

  method EncodeBase58(v: seq<Byte>) returns (str: string)
    ensures str == Encode(v)
  {
    hide Digits, Convert, Leading;
    AlphabetSize();
    var vchTmp := Reverse(v) + [0];
    NumOfReversed(v);
    var bn: nat := SetVch(vchTmp);
    ghost var d := Digits(58, bn);
    NumOfDigits(58, bn);
    str := WriteDigits(bn);
    var p;
    p, str := WriteZeros(v, str, d);
    LeadingCount(Nats(v), p);
    ReverseChars(d + Repeat<nat>(0, p));
    EncodedDigits(v, d, p);
    str := Reverse(str);
  }

  /** The division loop of EncodeBase58. */
  method WriteDigits(n: nat) returns (str: string)
    ensures DigitsOf(|BASE58_CHARS|, Digits(58, n)) && str == Chars(Digits(58, n))
  {
    hide Digits;
    AlphabetSize();
    var bn := n;
    str := "";
    ghost var d: seq<nat> := [];
    NumOfDigits(58, n);
    while bn > 0
      invariant Digits(58, n) == d + Digits(58, bn) && DigitsOf(58, d) && str == Chars(d)
      decreases bn
    {
      DigitAt(bn);
      var c := bn % 58;
      bn := bn / 58;
      str := str + [BASE58_CHARS[c]];
      assert (d + [c])[..|d|] == d;
      d := d + [c];
    }
    DigitsOfZero();
    assert d == Digits(58, n);
  }

  /** The leading-zero loop of EncodeBase58. */
  method WriteZeros(v: seq<Byte>, s: string, ghost d: seq<nat>) returns (p: nat, str: string)
    requires DigitsOf(|BASE58_CHARS|, d) && s == Chars(d)
    ensures p <= |v| && (forall i :: 0 <= i < p ==> v[i] == 0) && (p < |v| ==> v[p] != 0)
    ensures DigitsOf(|BASE58_CHARS|, d + Repeat<nat>(0, p)) && str == Chars(d + Repeat<nat>(0, p))
  {
    hide Chars, DigitsOf;
    p, str := 0, s;
    assert d + Repeat<nat>(0, 0) == d;
    while p < |v| && v[p] == 0
      invariant p <= |v| && DigitsOf(|BASE58_CHARS|, d + Repeat<nat>(0, p)) && str == Chars(d + Repeat<nat>(0, p))
      invariant forall i :: 0 <= i < p ==> v[i] == 0
    {
      OneMoreZero(d, p);
      str := str + [BASE58_CHARS[0]];
      p := p + 1;
    }
  }

  lemma OneMoreZero(d: seq<nat>, p: nat)
    requires DigitsOf(|BASE58_CHARS|, d + Repeat<nat>(0, p))
    ensures DigitsOf(|BASE58_CHARS|, d + Repeat<nat>(0, p + 1))
    ensures Chars(d + Repeat<nat>(0, p + 1)) == Chars(d + Repeat<nat>(0, p)) + [BASE58_CHARS[0]]
  {
    var more := d + Repeat<nat>(0, p + 1);
    assert more[..|d| + p] == d + Repeat<nat>(0, p) && more[|d| + p] == 0;
  }

  lemma DigitAt(n: nat)
    requires n > 0
    ensures n / 58 < n && Digits(58, n) == [n % 58] + Digits(58, n / 58)
  {
  }

  lemma DigitsOfZero()
    ensures Digits(58, 0) == []
  {
  }

  lemma LeadingCount(v: seq<nat>, p: nat)
    requires p <= |v| && (forall i :: 0 <= i < p ==> v[i] == 0) && (p < |v| ==> v[p] != 0)
    ensures Leading(v) == p
  {
    assert p < |v| ==> !(p < Leading(v));
  }

  lemma {:induction false} ReverseChars(d: seq<nat>)
    requires DigitsOf(|BASE58_CHARS|, d)
    ensures DigitsOf(|BASE58_CHARS|, Reverse(d))
    ensures Reverse(Chars(d)) == Chars(Reverse(d))
  {
    CharsAt(d);
    CharsAt(Reverse(d));
  }

  lemma {:induction false} CharsAt(d: seq<nat>)
    requires DigitsOf(|BASE58_CHARS|, d)
    ensures forall i :: 0 <= i < |d| ==> Chars(d)[i] == BASE58_CHARS[d[i]]
  {
    if d != [] {
      CharsAt(d[..|d| - 1]);
    }
  }

  lemma EncodedDigits(v: seq<Byte>, d: seq<nat>, p: nat)
    requires d == Digits(58, Num(256, Reverse(Nats(v)))) && p == Leading(Nats(v))
    ensures Reverse(d + Repeat<nat>(0, p)) == Convert(256, 58, Nats(v))
  {
    hide Digits, Num, Leading;
  }

  method DecodeBase58(psz: string) returns (ok: bool, vchRet: seq<Byte>)
    ensures ok <==> Decodable(psz)
    ensures ok ==> vchRet == Decode(psz)
    ensures !ok ==> vchRet == []
  {
    hide Digits, Convert, IndexOf, Values, InAlphabet, SkipSpaces;
    vchRet := [];
    var s := DropSpaces(psz);
    var p, bn := ReadDigits(s);
    var q := DropSpaces(s[p..]);
    if q != "" {
      return false, [];
    }
    ok := true;
    var vchTmp := TrimSign(Vch(bn));
    var nLeadingZeros := CountOnes(s, p);
    TrimmedIsDigits(bn);
    vchRet := seq(nLeadingZeros, _ => 0) + Reverse(vchTmp);
    DecodedBytes(s[..p], bn, nLeadingZeros, vchTmp, vchRet);
  }

  method DropSpaces(psz: string) returns (s: string)
    ensures s == SkipSpaces(psz)
  {
    s := psz;
    while s != "" && IsSpace(s[0])
      invariant SkipSpaces(s) == SkipSpaces(psz)
      decreases |s|
    {
      s := s[1..];
    }
  }

  /** The multiplication loop of DecodeBase58. */
  method ReadDigits(s: string) returns (p: nat, bn: nat)
    ensures p == Span(s) && bn == Num(|BASE58_CHARS|, Reverse(Values(s[..p])))
  {
    hide IndexOf, Values, InAlphabet, Num;
    NoDigits();
    bn, p := 0, 0;
    assert s[..0] == "";
    while p < |s| && InAlphabet(s[p])
      invariant p <= |s| && forall i :: 0 <= i < p ==> InAlphabet(s[i])
      invariant bn == Num(|BASE58_CHARS|, Reverse(Values(s[..p])))
    {
      NumAppend(s[..p], s[p]);
      assert s[..p + 1] == s[..p] + [s[p]];
      bn := bn * 58 + IndexOf(BASE58_CHARS, s[p]);
      p := p + 1;
    }
    SpanIs(s, p);
  }

  lemma NoDigits()
    ensures Num(|BASE58_CHARS|, Reverse(Values(""))) == 0
  {
  }

  method CountOnes(s: string, p: nat) returns (nLeadingZeros: nat)
    requires p == Span(s)
    ensures nLeadingZeros == Leading(Values(s[..p]))
  {
    hide IndexOf, Values, InAlphabet, Leading;
    IndexOfChar(0);
    nLeadingZeros := 0;
    while nLeadingZeros < |s| && s[nLeadingZeros] == BASE58_CHARS[0]
      invariant nLeadingZeros <= p && forall i :: 0 <= i < nLeadingZeros ==> s[i] == BASE58_CHARS[0]
    {
      nLeadingZeros := nLeadingZeros + 1;
    }
    LeadingOnes(s, p, nLeadingZeros);
  }

  lemma NumAppend(s: string, c: char)
    ensures Num(|BASE58_CHARS|, Reverse(Values(s + [c]))) ==
            IndexOf(BASE58_CHARS, c) + 58 * Num(|BASE58_CHARS|, Reverse(Values(s)))
  {
    AlphabetSize();
    var v, i := Values(s), IndexOf(BASE58_CHARS, c);
    assert (s + [c])[..|s|] == s;
    assert Values(s + [c]) == v + [i];
    assert Reverse(v + [i]) == [i] + Reverse(v);
    assert ([i] + Reverse(v))[1..] == Reverse(v);
  }

  lemma SpanIs(s: string, p: nat)
    requires p <= |s| && (forall i :: 0 <= i < p ==> InAlphabet(s[i])) && (p < |s| ==> !InAlphabet(s[p]))
    ensures Span(s) == p
  {
    assert p < |s| ==> !(p < Span(s));
  }

  lemma LeadingOnes(s: string, p: nat, z: nat)
    requires z <= p <= |s| && (forall i :: 0 <= i < p ==> InAlphabet(s[i])) && (forall i :: 0 <= i < z ==> s[i] == BASE58_CHARS[0])
    requires z < |s| ==> s[z] != BASE58_CHARS[0]
    ensures Leading(Values(s[..p])) == z
  {
    hide InAlphabet, IndexOf;
    ValuesAt(s[..p]);
    IndexOfChar(0);
    forall i | 0 <= i < p
      ensures Values(s[..p])[i] == IndexOf(BASE58_CHARS, s[i])
    {
    }
    assert z < p ==> Values(s[..p])[z] != 0 by {
      if z < p {
        assert InAlphabet(s[z]);
        AlphabetAt(s[z]);
      }
    }
    LeadingCount(Values(s[..p]), z);
  }

  lemma AlphabetAt(c: char)
    requires InAlphabet(c)
    ensures IndexOf(BASE58_CHARS, c) < |BASE58_CHARS| && BASE58_CHARS[IndexOf(BASE58_CHARS, c)] == c
  {
  }

  lemma {:induction false} ValuesAt(s: string)
    ensures forall i :: 0 <= i < |s| ==> Values(s)[i] == IndexOf(BASE58_CHARS, s[i])
  {
    hide IndexOf;
    if s != "" {
      ValuesAt(s[..|s| - 1]);
    }
  }

  lemma DecodedBytes(s: string, bn: nat, z: nat, vch: seq<Byte>, r: seq<Byte>)
    requires forall i :: 0 <= i < |s| ==> InAlphabet(s[i])
    requires bn == Num(|BASE58_CHARS|, Reverse(Values(s))) && z == Leading(Values(s))
    requires Nats(vch) == Digits(256, bn) && r == seq(z, _ => 0) + Reverse(vch)
    ensures DigitsOf(256, Convert(|BASE58_CHARS|, 256, Values(s))) && r == Bytes(Convert(|BASE58_CHARS|, 256, Values(s)))
  {
    hide Digits, Num, Leading, InAlphabet;
    ValuesAre(s);
    ConvertBack(|BASE58_CHARS|, 256, Values(s));
    var c := Convert(|BASE58_CHARS|, 256, Values(s));
    assert c == Repeat<nat>(0, z) + Reverse(Nats(vch));
    assert |r| == |c| && forall i :: 0 <= i < |r| ==> r[i] == c[i];
  }
}
