/** The assertions that are emitted for inverted codes: that words of zeros, and of ones, are
    not encoded as such. */
module Inversion {
  import opened Bits
  import opened Secded
  import opened Combinations
  import opened HsiaoGen
  import opened HammingGen
  import opened FaninOptimality

  function Ones(n: nat): (w: Word)
    ensures |w| == n
  {
    seq(n, i => true)
  }

  /** Data of zeros never encodes to zeros when odd parity bits are inverted. */
  lemma AllZerosCheck(ct: CodeType, k: nat, m: nat, codes: seq<Column>)
    requires ct.Inverted() && m >= 2 && MatrixOk(k, m, codes)
    ensures Encode(ct, k, m, codes, Zeros(k)) != Zeros(k + m)
  {
    var p := Plain(k, m, codes, Zeros(k));
    PlainOfZeros(k, m, codes, k + m);
    InvWordBit(ct, k, m, k + 1);
    assert Encode(ct, k, m, codes, Zeros(k))[k + 1] == (p[k + 1] != BitAt(InvWord(ct, k, m), k + 1));
  }

  lemma {:induction false} PlainOfZeros(k: nat, m: nat, codes: seq<Column>, n: nat)
    requires MatrixOk(k, m, codes) && k <= n <= k + m
    ensures forall i :: 0 <= i < n ==> !Plain(k, m, codes, Zeros(k))[i]
    decreases n
  {
    var p := Plain(k, m, codes, Zeros(k));
    PlainSolves(k, m, codes, Zeros(k));
    if n == k {
      assert forall i :: 0 <= i < k ==> p[i] == p[..k][i];
    } else {
      var j := n - 1 - k;
      var mask := Masks(k, m, codes, false)[j];
      PlainOfZeros(k, m, codes, n - 1);
      forall i | 0 <= i < |p|
        ensures !AndMask(p, mask)[i]
      {
        MaskBit(k, m, codes, false, j, i);
      }
      XorAllZeros(AndMask(p, mask));
      assert p[k + j] == XorAll(AndMask(p, mask));
    }
  }

  lemma {:induction false} CountRow(codes: seq<Column>, j: nat, w: Word)
    requires |w| == |codes| && forall i :: 0 <= i < |codes| ==> w[i] == (j in codes[i])
    ensures CountOnes(w) == Fanin(codes, j)
  {
    if codes != [] {
      CountRow(codes[1..], j, w[1..]);
    }
  }

  /** Parity bit `j` of all-one data is the parity of the data fan-in of row `j`, if the row's
      check covers no other parity bit. */
  lemma OnesParityBit(k: nat, m: nat, codes: seq<Column>, j: nat)
    requires MatrixOk(k, m, codes) && j < m
    requires forall i :: k <= i < |codes| ==> j !in codes[i]
    ensures Plain(k, m, codes, Ones(k))[k + j] == (Fanin(codes[..k], j) % 2 == 1)
  {
    var p := Plain(k, m, codes, Ones(k));
    var mask := Masks(k, m, codes, false)[j];
    PlainSolves(k, m, codes, Ones(k));
    var low := AndMask(p, mask)[..k];
    forall i | 0 <= i < |p|
      ensures AndMask(p, mask)[i] == (i < k && j in codes[i])
    {
      MaskBit(k, m, codes, false, j, i);
      assert i < k ==> p[i] == p[..k][i];
    }
    XorAllAppend(low, AndMask(p, mask)[k..]);
    assert AndMask(p, mask) == low + AndMask(p, mask)[k..];
    XorAllZeros(AndMask(p, mask)[k..]);
    XorAllIsParityOfCount(low);
    CountRow(codes[..k], j, low);
    assert p[k + j] == XorAll(AndMask(p, mask));
  }

  lemma OnesParts(w: Word, k: nat, m: nat)
    requires |w| == k + m && w[..k] == Ones(k)
    ensures w == Ones(k + m) <==> forall i :: k <= i < k + m ==> w[i]
  {
    assert forall i :: 0 <= i < k ==> w[i] == w[..k][i];
  }

  /** The same bit in the word of an inverted code. */
  lemma InvertedOnesBit(ct: CodeType, k: nat, m: nat, codes: seq<Column>, j: nat)
    requires ct.Inverted() && MatrixOk(k, m, codes) && j < m
    requires forall i :: k <= i < |codes| ==> j !in codes[i]
    ensures Encode(ct, k, m, codes, Ones(k))[k + j] == ((Fanin(codes[..k], j) + j) % 2 == 1)
  {
    hide Fanin, Plain, InvWord, BitAt, Ones;
    var p := Plain(k, m, codes, Ones(k));
    OnesParityBit(k, m, codes, j);
    InvWordBit(ct, k, m, k + j);
    assert Encode(ct, k, m, codes, Ones(k))[k + j] == (p[k + j] != BitAt(InvWord(ct, k, m), k + j));
    ParityOfSum(Fanin(codes[..k], j), j);
  }

  lemma ParityOfSum(a: nat, b: nat)
    ensures ((a + b) % 2 == 1) == ((a % 2 == 1) != (b % 2 == 1))
  {
  }

  /** Even rows have odd fan-in and odd rows have even fan-in. */
  ghost predicate AlternatingFanin(m: nat, codes: seq<Column>) {
    forall j :: 0 <= j < m ==> (Fanin(codes, j) + j) % 2 == 1
  }

  /** The second emitted assertion is not guaranteed. For an inverted Hsiao code, data of ones
      encodes to ones exactly when the parities of the fan-ins alternate. */
  lemma AllOnesCheckIff(k: nat, m: nat, codes: seq<Column>)
    requires HsiaoMatrix(k, m, codes)
    ensures Encode(InvHsiao, k, m, codes, Ones(k)) == Ones(k + m) <==> AlternatingFanin(m, codes)
  {
    var w := Encode(InvHsiao, k, m, codes, Ones(k));
    EncodeKeepsData(InvHsiao, k, m, codes, Ones(k));
    hide Encode, Fanin;
    OnesParts(w, k, m);
    assert codes[..k] == codes;
    forall i | k <= i < k + m
      ensures w[i] == ((Fanin(codes, i - k) + (i - k)) % 2 == 1)
    {
      InvertedOnesBit(InvHsiao, k, m, codes, i - k);
    }
    hide HsiaoMatrix, Ones;
    AlternatingBits(w, k, m, codes);
  }

  lemma AlternatingBits(w: Word, k: nat, m: nat, codes: seq<Column>)
    requires |w| == k + m
    requires forall i :: k <= i < k + m ==> w[i] == ((Fanin(codes, i - k) + (i - k)) % 2 == 1)
    ensures (forall i :: k <= i < k + m ==> w[i]) <==> AlternatingFanin(m, codes)
  {
    if AlternatingFanin(m, codes) {
      forall i | k <= i < k + m
        ensures w[i]
      {
        var j := i - k;
        assert (Fanin(codes, j) + j) % 2 == 1;
      }
    } else {
      var j :| 0 <= j < m && (Fanin(codes, j) + j) % 2 != 1;
      assert !w[j + k];
    }
  }

  const SAMPLE: seq<Column> := [[0, 1, 3], [1, 2, 3]]

  lemma SampleFanin(j: nat)
    ensures Fanin(SAMPLE, j) == B2N(j in [0, 1, 3]) + B2N(j in [1, 2, 3])
  {
    assert Fanin(SAMPLE, j) == B2N(j in SAMPLE[0]) + Fanin(SAMPLE[1..], j);
    assert Fanin(SAMPLE[1..], j) == B2N(j in SAMPLE[1]) + Fanin(SAMPLE[1..][1..], j);
  }

  lemma SampleMinWeight()
    ensures MinWeight(2, 4, 3) == 6 && Capacity(4) == 4
  {
    OddSubsets(4);
    assert Pow2(3) == 8 by {
      assert Pow2(1) == 2 && Pow2(2) == 4;
    }
    assert LayerSum(4, 3) == Choose(4, 3) + LayerSum(4, 5);
  }

  lemma SampleGenerated()
    ensures Generated(2, 4, SAMPLE)
  {
    SampleMinWeight();
    assert Weight(SAMPLE) == 6 by {
      assert Weight(SAMPLE) == 3 + Weight(SAMPLE[1..]);
      assert Weight(SAMPLE[1..]) == 3 + Weight(SAMPLE[1..][1..]);
    }
    hide MinWeight, Capacity, Weight, Fanin;
    forall j | 0 <= j < 4
      ensures Fanin(SAMPLE, j) <= CeilDiv(6, 4)
    {
      SampleFanin(j);
    }
  }

  lemma SampleAlternates()
    ensures HsiaoMatrix(2, 4, SAMPLE) && AlternatingFanin(4, SAMPLE)
  {
    hide Fanin;
    forall j | 0 <= j < 4
      ensures (Fanin(SAMPLE, j) + j) % 2 == 1
    {
      SampleFanin(j);
    }
  }

  /** The generator returns it for some shuffle: the layer of weight three, which it needs a part
      of, has a permutation that starts with the sample, and the fan-in test accepts that. */
  lemma SampleReturned() returns (shuffled: seq<Column>)
    ensures 2 < |Combos(0, 4, 3)| && multiset(shuffled) == multiset(Combos(0, 4, 3))
    ensures 2 <= |shuffled| && shuffled[..2] == SAMPLE
    ensures forall j :: 0 <= j < 4 ==> Fanin([], j) + Fanin(shuffled[..2], j) <= CeilDiv(MinWeight(2, 4, 3), 4)
  {
    hide Combos, Choose, Fanin, MinWeight, CeilDiv;
    SampleInLayer();
    CombosDistinct(0, 4, 3);
    shuffled := Fronted(Combos(0, 4, 3), SAMPLE);
    SampleGenerated();
    NoFanin();
  }

  lemma SampleInLayer()
    ensures |Combos(0, 4, 3)| == 4 && forall i :: 0 <= i < |SAMPLE| ==> SAMPLE[i] in Combos(0, 4, 3)
  {
    hide Combos, Choose, ComboOf;
    CombosCount(0, 4, 3);
    FourTriples();
    assert ComboOf([0, 1, 3], 0, 4, 3) && ComboOf([1, 2, 3], 0, 4, 3) by { SampleCombos(); }
    InLayer([0, 1, 3], 4, 3);
    InLayer([1, 2, 3], 4, 3);
  }

  lemma FourTriples()
    ensures Choose(4, 3) == 4
  {
  }

  lemma SampleCombos()
    ensures ComboOf([0, 1, 3], 0, 4, 3) && ComboOf([1, 2, 3], 0, 4, 3)
  {
  }

  lemma InLayer(c: Column, m: nat, s: nat)
    requires ComboOf(c, 0, m, s)
    ensures c in Combos(0, m, s)
  {
    hide Combos, ComboOf;
    var _ := CombosComplete(0, m, s, c);
  }

  lemma NoFanin()
    ensures forall j :: Fanin([], j) == 0
  {
  }

  /** A matrix the generator returns for some shuffle, with the minimal parity size and the ideal
      fan-in, for which the assertion fails. */
  lemma AllOnesCheckCanFail() returns (shuffled: seq<Column>)
    ensures Generated(2, 4, SAMPLE)
    ensures multiset(shuffled) == multiset(Combos(0, 4, 3)) && 2 <= |shuffled| && shuffled[..2] == SAMPLE
    ensures forall j :: 0 <= j < 4 ==> Fanin([], j) + Fanin(shuffled[..2], j) <= CeilDiv(MinWeight(2, 4, 3), 4)
    ensures Encode(InvHsiao, 2, 4, SAMPLE, Ones(2)) == Ones(6)
  {
    hide *;
    shuffled := SampleReturned();
    SampleGenerated();
    SampleAlternates();
    AllOnesCheckIff(2, 4, SAMPLE);
  }

  // ----- Hamming codes meet the second assertion -----

  /** How many of the numbers have bit `j` set. */
  function BitCount(bs: seq<nat>, j: nat): nat {
    if bs == [] then 0 else BitCount(bs[..|bs| - 1], j) + B2N(BitAt(bs[|bs| - 1], j))
  }

  /** Rows 0 and 1 of a Hamming matrix of `t` code bits: their fan-ins, from `t` alone. */
  lemma {:induction false} LowRows(t: nat)
    requires t >= 3
    ensures BitCount(DataPositions(1, t), 0) + 1 == t / 2
    ensures BitCount(DataPositions(1, t), 1) + 1 == 2 * (t / 4) + if t % 4 == 3 then 1 else 0
    decreases t
  {
    hide DataPositions, IsDataPosition, BitCount;
    if t == 3 {
      FirstPositions();
    } else {
      LowRows(t - 1);
      NextPosition(t - 1, 0);
      NextPosition(t - 1, 1);
      LowBits(t - 1);
    }
  }

  /** One more code bit adds its own low bits, whether it is a data bit or not. */
  lemma NextPosition(b: nat, j: nat)
    requires b >= 3 && j < 2
    ensures BitCount(DataPositions(1, b + 1), j) == BitCount(DataPositions(1, b), j) + B2N(BitAt(b, j))
  {
    hide DataPositions, IsDataPosition;
    DataPositionsSnoc(1, b);
    LowBits(b);
    PowerHasNoLowBits(b);
    var bs := DataPositions(1, b);
    assert (bs + [b])[..|bs|] == bs;
    assert bs + [] == bs;
  }

  lemma FirstPositions()
    ensures BitCount(DataPositions(1, 3), 0) == 0 && BitCount(DataPositions(1, 3), 1) == 0
  {
    DataPositionIffNotPower(1);
    DataPositionIffNotPower(2);
    assert 1 == Pow2(0) && 2 == Pow2(1);
    assert DataPositions(1, 3) == [] + ([] + DataPositions(3, 3));
  }

  lemma LowBits(b: nat)
    ensures BitAt(b, 0) == (b % 2 == 1) && BitAt(b, 1) == (b / 2 % 2 == 1)
  {
    assert BitAt(b, 1) == BitAt(b / 2, 0);
  }

  lemma PowerHasNoLowBits(b: nat)
    requires b >= 3
    ensures !IsDataPosition(b) ==> b % 4 == 0
  {
    DataPositionIffNotPower(b);
    if n: nat :| b == Pow2(n) {
      assert n >= 2 by {
        assert Pow2(0) == 1 && Pow2(1) == 2;
      }
      assert Pow2(n) == 2 * (2 * Pow2(n - 2));
    }
  }

  lemma {:induction false} FaninIsBitCount(bs: seq<nat>, last: nat, j: nat)
    requires j < last
    ensures Fanin(seq(|bs|, i requires 0 <= i < |bs| => HammingColumn(bs[i], last)), j) == BitCount(bs, j)
    decreases |bs|
  {
    var codes := seq(|bs|, i requires 0 <= i < |bs| => HammingColumn(bs[i], last));
    if bs != [] {
      var init := bs[..|bs| - 1];
      var initCodes := seq(|init|, i requires 0 <= i < |init| => HammingColumn(init[i], last));
      var c := HammingColumn(bs[|bs| - 1], last);
      FaninIsBitCount(init, last, j);
      assert codes == initCodes + [c];
      FaninAppend(initCodes, [c], j);
      assert Fanin([c], j) == B2N(j in c) + Fanin([c][1..], j);
      OnePositionsMember(bs[|bs| - 1], 0, last, j);
    }
  }

  lemma HammingFanin(k: nat, m: nat, j: nat)
    requires m >= 3 && Pow2(m - 2) < k + m <= Pow2(m - 1) && j < m - 1
    ensures k <= |HammingCode(k, m)| && Fanin(HammingCode(k, m)[..k], j) == BitCount(DataPositions(1, k + m), j)
  {
    hide Fanin, HammingColumn;
    HammingColumnCount(k, m);
    var bs := DataPositions(1, k + m);
    FaninIsBitCount(bs, m - 1, j);
    assert HammingCode(k, m)[..k] == seq(|bs|, i requires 0 <= i < |bs| => HammingColumn(bs[i], m - 1));
  }

  /** The second emitted assertion holds for every inverted Hamming code: the first two parity bits
      are never both one. */
  lemma HammingAllOnesCheck(k: nat, m: nat)
    requires m >= 3 && Pow2(m - 2) < k + m <= Pow2(m - 1)
    ensures |HammingCode(k, m)| == k + m - 1
    ensures Encode(InvHamming, k, m, HammingCode(k, m), Ones(k)) != Ones(k + m)
  {
    hide HammingMatrix, MatrixOk, Encode, HammingCode, Fanin, BitCount, Pow2, DataPositions, Ones;
    var codes := HammingCode(k, m);
    LowRowsAreData(k, m);
    InvertedOnesBit(InvHamming, k, m, codes, 0);
    InvertedOnesBit(InvHamming, k, m, codes, 1);
    HammingFanin(k, m, 0);
    HammingFanin(k, m, 1);
    LowRows(k + m);
    NotAlternating(k + m, BitCount(DataPositions(1, k + m), 0), BitCount(DataPositions(1, k + m), 1));
    AllOnes(k + m, k);
    AllOnes(k + m, k + 1);
  }

  lemma AllOnes(n: nat, i: nat)
    requires i < n
    ensures Ones(n)[i]
  {
  }

  /** The checks of rows 0 and 1 cover no other parity bit. */
  lemma LowRowsAreData(k: nat, m: nat)
    requires m >= 3 && Pow2(m - 2) < k + m <= Pow2(m - 1)
    ensures var codes := HammingCode(k, m);
            && |codes| == k + m - 1 && MatrixOk(k, m, codes)
            && (forall i :: k <= i < |codes| ==> 0 !in codes[i] && 1 !in codes[i])
            && k + m >= 3
  {
    hide HammingCode, MatrixOk;
    var codes := HammingCode(k, m);
    HammingIsGood(k, m);
    GoodMatrixOk(InvHamming, k, m, codes);
    assert forall i :: k <= i < |codes| ==> codes[i] == [m - 1];
    assert Pow2(m - 2) == 2 * Pow2(m - 3);
  }

  lemma NotAlternating(t: nat, row0: nat, row1: nat)
    requires row0 + 1 == t / 2 && row1 + 1 == 2 * (t / 4) + if t % 4 == 3 then 1 else 0
    ensures !(row0 % 2 == 1 && (row1 + 1) % 2 == 1)
  {
    var q := t / 4;
    assert t == 4 * q + t % 4;
  }
}
