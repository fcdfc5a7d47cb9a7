/** The SECDED theorem for the matrices the generators actually produce. */
module Guarantees {
  import opened Bits
  import opened Secded
  import opened Combinations
  import opened HsiaoGen
  import opened HammingGen

  // ----- end to end -----

  /** With at least the minimal number of parity bits, whatever the Hsiao generator returns
      gives a code that corrects one flip and detects two. */
  lemma HsiaoEndToEnd(ct: CodeType, k: nat, m: nat, least: nat, codes: seq<Column>, data: Word, e: Word)
    requires !ct.IsHamming() && LeastParity(k, least) && m >= least && Generated(k, m, codes)
    requires |data| == k && |e| == k + m && CountOnes(e) <= 2
    ensures |codes| == k
    ensures DecodedRight(Decode(ct, k, m, codes, XorWord(Encode(ct, k, m, codes, data), e)), data, e)
  {
    assert Capacity(m) >= k;
    SecdedTheorem(ct, k, m, codes, data, e);
  }

  /** The minimal parity size also fits the Hamming construction. */
  lemma LeastParityFitsHamming(k: nat, m: nat)
    requires k >= 1 && LeastParity(k, m)
    ensures Pow2(m - 2) < k + m <= Pow2(m - 1)
  {
    OddSubsets(m);
    OddSubsets(m - 1);
    assert Capacity(m) >= k;
    assert !(Capacity(m - 1) >= k);
  }

  /** Whenever the Hamming construction fits, which the minimal parity size guarantees, its code
      corrects one flip and detects two. */
  lemma HammingEndToEnd(ct: CodeType, k: nat, m: nat, data: Word, e: Word)
    requires ct.IsHamming() && m >= 2 && Pow2(m - 2) < k + m <= Pow2(m - 1)
    requires |data| == k && |e| == k + m && CountOnes(e) <= 2
    ensures HammingMatrix(k, m, HammingCode(k, m))
    ensures DecodedRight(Decode(ct, k, m, HammingCode(k, m),
                                XorWord(Encode(ct, k, m, HammingCode(k, m), data), e)), data, e)
  {
    HammingIsGood(k, m);
    SecdedTheorem(ct, k, m, HammingCode(k, m), data, e);
  }
}
