/** The block height that AcceptBlock demands at the start of every beanbase script (src/main.cpp, src/script.h). */
module BeanbaseHeight {
  import opened Transactions
  import opened BigNum

  /** CScript() << nHeight: a one-byte opcode for 1 to 16, otherwise a length byte and the number's bytes. */
  function HeightScript(nHeight: nat): Script
    requires nHeight < 0x8000_0000
  {
    if 1 <= nHeight <= 16 then [nHeight + 80]
    else
      HeightScriptLength(nHeight);
      [|Vch(nHeight)|] + Vch(nHeight)
  }

  lemma HeightScriptLength(n: nat)
    requires n < 0x8000_0000
    ensures |Vch(n)| <= 5
  {
    assert Pow256(4) == 256 * Pow256(3);
    assert Pow256(2) == 256 * Pow256(1);
    VchLength(n, 4);
  }

  /** The height can be read off its script: from the opcode, or from as many little-endian bytes as the first byte says. */
  lemma HeightReadsBack(nHeight: nat)
    requires nHeight < 0x8000_0000
    ensures var s := HeightScript(nHeight);
            if 1 <= nHeight <= 16 then |s| == 1 && s[0] == 80 + nHeight
            else |s| <= 6 && |s| - 1 == s[0] && VchValue(s[1..]) == nHeight
  {
    HeightScriptLength(nHeight);
    VchRoundTrip(nHeight);
    hide Vch, VchValue;
    if !(1 <= nHeight <= 16) {
      assert HeightScript(nHeight)[1..] == Vch(nHeight);
    }
  }

  /** No height's script starts another's, so one beanbase cannot carry two heights. */
  lemma HeightScriptPrefixFree(a: nat, b: nat, script: Script)
    requires a < 0x8000_0000 && b < 0x8000_0000
    requires HeightScript(a) <= script && HeightScript(b) <= script
    ensures a == b
  {
    HeightScriptLength(a);
    HeightScriptLength(b);
    assert script[0] == HeightScript(a)[0] == HeightScript(b)[0];
    if !(1 <= a <= 16) {
      var n := |Vch(a)|;
      assert HeightScript(a)[1..] == script[1..n + 1] == HeightScript(b)[1..] == Vch(b);
      VchRoundTrip(a);
      VchRoundTrip(b);
    }
  }
}
