/** The meaning of the SECDED encoders and decoders that the generator prints:
    parity matrices, the bit masks computed from them, and the emitted
    SystemVerilog, for any code matrix with the stated properties. */
module Secded {
  import opened Bits

  /** One column of the parity matrix: the parity bits one code bit takes part in. */
  type Column = seq<nat>

  datatype CodeType = Hsiao | InvHsiao | Hamming | InvHamming {
    predicate Inverted() { InvHsiao? || InvHamming? }
    predicate IsHamming() { Hamming? || InvHamming? }
  }

  datatype Decoded = Decoded(data: Word, syndrome: Word, err0: bool, err1: bool)

  ghost predicate Ascending(c: Column) {
    forall a, b :: 0 <= a < b < |c| ==> c[a] < c[b]
  }

  ghost predicate ColumnOk(c: Column, m: nat) {
    Ascending(c) && forall a :: 0 <= a < |c| ==> c[a] < m
  }

  function ColumnBits(c: Column, m: nat): (w: Word)
    ensures |w| == m
  {
    seq(m, j => j in c)
  }

  /** Well-formed matrix for `k` data bits: a column listed for parity bit `j`
      only mentions later parity bits, so parity bits can be computed in order. */
  ghost predicate MatrixOk(k: nat, m: nat, codes: seq<Column>) {
    && k <= |codes| <= k + m
    && (forall i :: 0 <= i < |codes| ==> ColumnOk(codes[i], m))
    && (forall i, j :: k <= i < |codes| && j in codes[i] ==> i < k + j)
  }

  // ----- bit masks -----

  /** Row `j` of the parity matrix as a bit mask. */
  function EncMask(codes: seq<Column>, j: nat): nat {
    ToNat(seq(|codes|, i requires 0 <= i < |codes| => j in codes[i]))
  }

  function MaskOf(k: nat, codes: seq<Column>, dec: bool, j: nat): nat {
    EncMask(codes, j) + if dec then Pow2(k + j) else 0
  }

  function Masks(k: nat, m: nat, codes: seq<Column>, dec: bool): (masks: seq<nat>)
    ensures |masks| == m
  {
    seq(m, j requires 0 <= j => MaskOf(k, codes, dec, j))
  }

  lemma EncMaskBit(codes: seq<Column>, j: nat, i: nat)
    ensures BitAt(EncMask(codes, j), i) == (i < |codes| && j in codes[i])
  {
    BitAtToNat(seq(|codes|, i requires 0 <= i < |codes| => j in codes[i]), i);
  }

  /** Membership of code bit `p` in parity check `j`, as the decoder sees it. */
  predicate Checks(k: nat, codes: seq<Column>, j: nat, p: nat) {
    (p < |codes| && j in codes[p]) || p == k + j
  }

  /** The arithmetic masks are exactly the incidence relation of the matrix. */
  lemma MaskBit(k: nat, m: nat, codes: seq<Column>, dec: bool, j: nat, p: nat)
    requires MatrixOk(k, m, codes) && j < m
    ensures BitAt(Masks(k, m, codes, dec)[j], p) ==
            if dec then Checks(k, codes, j, p) else p < |codes| && j in codes[p]
  {
    EncMaskBit(codes, j, p);
    if dec {
      EncMaskBit(codes, j, k + j);
      AddPow2(EncMask(codes, j), k + j, p);
    }
  }

  lemma {:induction false} ToNatSnoc(w: Word, b: bool)
    ensures ToNat(w + [b]) == ToNat(w) + B2N(b) * Pow2(|w|)
  {
    if w == [] {
      assert ([] + [b])[1..] == [];
    } else {
      assert (w + [b])[1..] == w[1..] + [b];
      ToNatSnoc(w[1..], b);
    }
  }

  lemma EncMaskSnoc(codes: seq<Column>, n: nat, j: nat)
    requires n < |codes|
    ensures EncMask(codes[..n + 1], j) == EncMask(codes[..n], j) + B2N(j in codes[n]) * Pow2(n)
  {
    var w := seq(n, i requires 0 <= i < n => j in codes[..n][i]);
    assert seq(n + 1, i requires 0 <= i < n + 1 => j in codes[..n + 1][i]) == w + [j in codes[n]];
    ToNatSnoc(w, j in codes[n]);
  }

  /** The generator's loop over the matrix. */
  method CalcBitmasks(k: nat, m: nat, codes: seq<Column>, dec: bool) returns (masks: seq<nat>)
    requires forall i :: 0 <= i < |codes| ==> ColumnOk(codes[i], m)
    ensures masks == Masks(k, m, codes, dec)
  {
    var faninMasks := new nat[m](_ => 0);
    forall j | 0 <= j < m
      ensures EncMask(codes[..0], j) == 0
    {
    }
    for i := 0 to |codes|
      invariant forall j :: 0 <= j < m ==> faninMasks[j] == EncMask(codes[..i], j)
    {
      var c := codes[i];
      for a := 0 to |c|
        invariant forall j :: 0 <= j < m ==>
          faninMasks[j] == EncMask(codes[..i], j) + B2N(j in c[..a]) * Pow2(i)
      {
        assert c[..a + 1] == c[..a] + [c[a]];
        assert c[a] !in c[..a];
        faninMasks[c[a]] := faninMasks[c[a]] + Pow2(i);
      }
      assert c[..|c|] == c;
      forall j | 0 <= j < m
        ensures faninMasks[j] == EncMask(codes[..i + 1], j)
      {
        EncMaskSnoc(codes, i, j);
      }
    }
    assert codes[..|codes|] == codes;
    if dec {
      for j := 0 to m
        invariant forall h :: 0 <= h < m ==> faninMasks[h] == MaskOf(k, codes, h < j, h)
      {
        faninMasks[j] := faninMasks[j] + Pow2(k + j);
      }
    }
    masks := faninMasks[..];
  }

  // ----- syndromes of columns -----

  /** The constant a data bit's syndrome is compared with: the sum of `2**x`. */
  function CalcSyndrome(code: Column): nat {
    if code == [] then 0 else CalcSyndrome(code[..|code| - 1]) + Pow2(code[|code| - 1])
  }

  lemma {:induction false} CalcSyndromeBit(code: Column, i: nat)
    requires Ascending(code)
    ensures BitAt(CalcSyndrome(code), i) == (i in code)
    decreases |code|
  {
    if code == [] {
      BitAtZero(i);
    } else {
      var init, last := code[..|code| - 1], code[|code| - 1];
      assert code == init + [last];
      CalcSyndromeBit(init, i);
      CalcSyndromeBit(init, last);
      AddPow2(CalcSyndrome(init), last, i);
    }
  }

  /** Comparing a syndrome vector with the printed constant is comparing it with the column. */
  lemma SyndromeMatches(s: Word, code: Column, m: nat)
    requires |s| == m && ColumnOk(code, m)
    ensures ToNat(s) == CalcSyndrome(code) <==> s == ColumnBits(code, m)
  {
    forall i: nat
      ensures BitAt(ToNat(ColumnBits(code, m)), i) == BitAt(CalcSyndrome(code), i)
    {
      BitAtToNat(ColumnBits(code, m), i);
      CalcSyndromeBit(code, i);
    }
    BitsDetermine(ToNat(ColumnBits(code, m)), CalcSyndrome(code));
    if ToNat(s) == CalcSyndrome(code) {
      ToNatInjective(s, ColumnBits(code, m));
    }
  }

  /** A column with an odd number of entries has odd parity. */
  lemma {:induction false} ColumnParity(c: Column, m: nat)
    requires ColumnOk(c, m)
    ensures XorAll(ColumnBits(c, m)) == (|c| % 2 == 1)
    decreases |c|
  {
    if c == [] {
      XorAllZeros(ColumnBits(c, m));
    } else {
      var init, last := c[..|c| - 1], c[|c| - 1];
      assert c == init + [last];
      ColumnParity(init, m);
      XorAllFlip(ColumnBits(init, m), last);
      assert ColumnBits(c, m) == ColumnBits(init, m)[last := !ColumnBits(init, m)[last]];
    }
  }

  lemma SameColumn(a: Column, b: Column, m: nat)
    requires ColumnOk(a, m) && ColumnOk(b, m)
    requires ColumnBits(a, m) == ColumnBits(b, m)
    ensures a == b
  {
    forall x | x in a
      ensures x in b
    {
      assert ColumnBits(a, m)[x];
    }
    forall x | x in b
      ensures x in a
    {
      assert ColumnBits(b, m)[x];
    }
    SameElements(a, b);
  }

  lemma InitMembers(c: Column)
    requires Ascending(c) && c != []
    ensures forall z :: z in c ==> z <= c[|c| - 1]
    ensures forall z :: z in c[..|c| - 1] <==> z in c && z < c[|c| - 1]
  {
    assert c == c[..|c| - 1] + [c[|c| - 1]];
  }

  lemma EmptyIff(c: Column)
    ensures c == [] <==> forall x :: x !in c
  {
    if c != [] {
      assert c[0] in c;
    }
  }

  lemma {:induction false} SameElements(a: Column, b: Column)
    requires Ascending(a) && Ascending(b)
    requires forall x :: x in a <==> x in b
    ensures a == b
    decreases |a|
  {
    EmptyIff(a);
    EmptyIff(b);
    if a != [] {
      InitMembers(a);
      InitMembers(b);
      var x := a[|a| - 1];
      assert x in a && b[|b| - 1] in b;
      assert x == b[|b| - 1];
      var a', b' := a[..|a| - 1], b[..|b| - 1];
      forall z
        ensures z in a' <==> z in b'
      {
        assert z in a' <==> z in a && z < x;
        assert z in b' <==> z in b && z < x;
      }
      SameElements(a', b');
      assert a == a' + [x] && b == b' + [x];
    }
  }

  /** The positions of the ones of `b` in `[lo, hi)`. */
  function OnePositions(b: nat, lo: nat, hi: nat): Column
    decreases hi - lo
  {
    if lo >= hi then [] else (if BitAt(b, lo) then [lo] else []) + OnePositions(b, lo + 1, hi)
  }

  lemma {:induction false} OnePositionsMember(b: nat, lo: nat, hi: nat, p: nat)
    ensures p in OnePositions(b, lo, hi) <==> lo <= p < hi && BitAt(b, p)
    decreases hi - lo
  {
    if lo < hi {
      OnePositionsMember(b, lo + 1, hi, p);
    }
  }

  lemma {:induction false} OnePositionsAscending(b: nat, lo: nat, hi: nat)
    ensures Ascending(OnePositions(b, lo, hi))
    decreases hi - lo
  {
    if lo < hi {
      var rest := OnePositions(b, lo + 1, hi);
      OnePositionsAscending(b, lo + 1, hi);
      forall i | 0 <= i < |rest|
        ensures lo < rest[i]
      {
        OnePositionsMember(b, lo + 1, hi, rest[i]);
      }
    }
  }

  lemma OnePositionsMembers(b: nat, lo: nat, hi: nat)
    ensures Ascending(OnePositions(b, lo, hi))
    ensures forall p :: p in OnePositions(b, lo, hi) <==> lo <= p < hi && BitAt(b, p)
  {
    OnePositionsAscending(b, lo, hi);
    forall p
      ensures p in OnePositions(b, lo, hi) <==> lo <= p < hi && BitAt(b, p)
    {
      if p >= 0 {
        OnePositionsMember(b, lo, hi, p);
      }
    }
  }

  // ----- the inversion constant -----

  /** `sum((x % 2) << x for x in range(m))`. */
  function InvMask(m: nat): nat {
    if m == 0 then 0 else InvMask(m - 1) + ((m - 1) % 2) * Pow2(m - 1)
  }

  lemma {:induction false} InvMaskBit(m: nat, j: nat)
    ensures BitAt(InvMask(m), j) == (j < m && j % 2 == 1)
  {
    if m == 0 {
      BitAtZero(j);
    } else {
      InvMaskBit(m - 1, j);
      if m % 2 == 0 {
        assert (m - 1) % 2 == 1;
        InvMaskBit(m - 1, m - 1);
        AddPow2(InvMask(m - 1), m - 1, j);
      } else {
        assert (m - 1) % 2 == 0;
      }
    }
  }

  function InvWord(ct: CodeType, k: nat, m: nat): nat {
    if ct.Inverted() then InvMask(m) * Pow2(k) else 0
  }

  lemma InvWordBit(ct: CodeType, k: nat, m: nat, i: nat)
    ensures BitAt(InvWord(ct, k, m), i) == (ct.Inverted() && k <= i < k + m && (i - k) % 2 == 1)
  {
    if ct.Inverted() {
      ShiftBits(InvMask(m), k, i);
      if i >= k {
        InvMaskBit(m, i - k);
      }
    } else {
      BitAtZero(i);
    }
  }

  // ----- the printed encoder -----

  /** The emitted assignments `data_o[k+j] = ^(data_o & mask)`, from the `j`-th on. */
  function Assigns(word: Word, masks: seq<nat>, k: nat, j: nat): (w: Word)
    requires |word| == k + |masks| && j <= |masks|
    ensures |w| == |word|
    decreases |masks| - j
  {
    if j == |masks| then word
    else Assigns(word[k + j := XorAll(AndMask(word, masks[j]))], masks, k, j + 1)
  }

  function Plain(k: nat, m: nat, codes: seq<Column>, data: Word): (w: Word)
    requires |data| == k
    ensures |w| == k + m
  {
    Assigns(data + Zeros(m), Masks(k, m, codes, false), k, 0)
  }

  function Encode(ct: CodeType, k: nat, m: nat, codes: seq<Column>, data: Word): (w: Word)
    requires |data| == k
    ensures |w| == k + m
  {
    XorMask(Plain(k, m, codes, data), InvWord(ct, k, m))
  }

  /** Row masks that only refer to bits already computed. */
  ghost predicate Layered(masks: seq<nat>, k: nat) {
    forall j, i: nat :: 0 <= j < |masks| && BitAt(masks[j], i) ==> i < k + j
  }

  /** Each assigned bit satisfies its own equation in the final word. */
  lemma {:induction false} AssignsSolve(word: Word, masks: seq<nat>, k: nat, j: nat)
    requires |word| == k + |masks| && j <= |masks| && Layered(masks, k)
    ensures var w := Assigns(word, masks, k, j);
            && (forall i :: 0 <= i < k + j ==> w[i] == word[i])
            && (forall h :: j <= h < |masks| ==> w[k + h] == XorAll(AndMask(w, masks[h])))
    decreases |masks| - j
  {
    if j < |masks| {
      var next := word[k + j := XorAll(AndMask(word, masks[j]))];
      AssignsSolve(next, masks, k, j + 1);
      var w := Assigns(word, masks, k, j);
      assert w == Assigns(next, masks, k, j + 1);
      assert AndMask(w, masks[j]) == AndMask(word, masks[j]);
    }
  }

  lemma EncMasksLayered(k: nat, m: nat, codes: seq<Column>)
    requires MatrixOk(k, m, codes)
    ensures Layered(Masks(k, m, codes, false), k)
  {
    forall j, i: nat | 0 <= j < m && BitAt(Masks(k, m, codes, false)[j], i)
      ensures i < k + j
    {
      MaskBit(k, m, codes, false, j, i);
    }
  }

  lemma PlainSolves(k: nat, m: nat, codes: seq<Column>, data: Word)
    requires |data| == k && MatrixOk(k, m, codes)
    ensures var w := Plain(k, m, codes, data);
            && w[..k] == data
            && (forall j :: 0 <= j < m ==> w[k + j] == XorAll(AndMask(w, Masks(k, m, codes, false)[j])))
  {
    EncMasksLayered(k, m, codes);
    AssignsSolve(data + Zeros(m), Masks(k, m, codes, false), k, 0);
  }

  // ----- the printed decoder -----

  function Syndrome(ct: CodeType, k: nat, m: nat, codes: seq<Column>, x: Word): (s: Word)
    requires |x| == k + m
    ensures |s| == m
  {
    seq(m, j requires 0 <= j < m =>
      XorAll(AndMask(XorMask(x, InvWord(ct, k, m)), Masks(k, m, codes, true)[j])))
  }

  function Decode(ct: CodeType, k: nat, m: nat, codes: seq<Column>, x: Word): (d: Decoded)
    requires |x| == k + m && k <= |codes| && m >= 1
    ensures |d.data| == k && |d.syndrome| == m
  {
    var s := Syndrome(ct, k, m, codes, x);
    var data := seq(k, i requires 0 <= i < k => (ToNat(s) == CalcSyndrome(codes[i])) != x[i]);
    if ct.IsHamming() then
      Decoded(data, s, s[m - 1], AnyBit(s[..m - 1]) && !s[m - 1])
    else
      Decoded(data, s, XorAll(s), !XorAll(s) && AnyBit(s))
  }

  // ----- linearity -----

  /** The pattern of checks that a flip of code bit `p` violates. */
  function FullColumn(k: nat, m: nat, codes: seq<Column>, p: nat): (w: Word)
    ensures |w| == m
  {
    seq(m, j requires 0 <= j => Checks(k, codes, j, p))
  }

  function ErrorSyndrome(k: nat, m: nat, codes: seq<Column>, e: Word): (s: Word)
    ensures |s| == m
  {
    seq(m, j requires 0 <= j < m => XorAll(AndMask(e, Masks(k, m, codes, true)[j])))
  }

  lemma PlainHasZeroSyndrome(k: nat, m: nat, codes: seq<Column>, data: Word, j: nat)
    requires |data| == k && MatrixOk(k, m, codes) && j < m
    ensures !XorAll(AndMask(Plain(k, m, codes, data), Masks(k, m, codes, true)[j]))
  {
    PlainSolves(k, m, codes, data);
    var w := Plain(k, m, codes, data);
    var enc := AndMask(w, Masks(k, m, codes, false)[j]);
    var dec := AndMask(w, Masks(k, m, codes, true)[j]);
    forall i | 0 <= i < |w|
      ensures dec[i] == if i == k + j then w[i] else enc[i]
      ensures i == k + j ==> !enc[i]
    {
      MaskBit(k, m, codes, false, j, i);
      MaskBit(k, m, codes, true, j, i);
    }
    if w[k + j] {
      XorAllFlip(enc, k + j);
      assert dec == enc[k + j := true];
    } else {
      assert dec == enc;
    }
  }

  /** The syndrome of a received word depends on the injected error alone. */
  lemma SyndromeOfError(ct: CodeType, k: nat, m: nat, codes: seq<Column>, data: Word, e: Word)
    requires |data| == k && |e| == k + m && MatrixOk(k, m, codes)
    ensures Syndrome(ct, k, m, codes, XorWord(Encode(ct, k, m, codes, data), e))
         == ErrorSyndrome(k, m, codes, e)
  {
    var w := Plain(k, m, codes, data);
    var inv := InvWord(ct, k, m);
    var x := XorWord(Encode(ct, k, m, codes, data), e);
    assert XorMask(x, inv) == XorWord(w, e);
    forall j | 0 <= j < m
      ensures Syndrome(ct, k, m, codes, x)[j] == ErrorSyndrome(k, m, codes, e)[j]
    {
      var mask := Masks(k, m, codes, true)[j];
      assert AndMask(XorWord(w, e), mask) == XorWord(AndMask(w, mask), AndMask(e, mask));
      XorAllLinear(AndMask(w, mask), AndMask(e, mask));
      PlainHasZeroSyndrome(k, m, codes, data, j);
    }
  }

  lemma ZeroErrorSyndrome(k: nat, m: nat, codes: seq<Column>)
    ensures ErrorSyndrome(k, m, codes, Zeros(k + m)) == Zeros(m)
  {
    var s := ErrorSyndrome(k, m, codes, Zeros(k + m));
    forall j | 0 <= j < m
      ensures s[j] == Zeros(m)[j]
    {
      XorAllZeros(AndMask(Zeros(k + m), Masks(k, m, codes, true)[j]));
    }
  }

  lemma SingleErrorSyndrome(k: nat, m: nat, codes: seq<Column>, p: nat)
    requires MatrixOk(k, m, codes) && p < k + m
    ensures ErrorSyndrome(k, m, codes, Unit(k + m, p)) == FullColumn(k, m, codes, p)
  {
    forall j | 0 <= j < m
      ensures ErrorSyndrome(k, m, codes, Unit(k + m, p))[j] == FullColumn(k, m, codes, p)[j]
    {
      var masked := AndMask(Unit(k + m, p), Masks(k, m, codes, true)[j]);
      MaskBit(k, m, codes, true, j, p);
      if Checks(k, codes, j, p) {
        assert masked == Unit(k + m, p);
        XorAllUnit(k + m, p);
      } else {
        XorAllZeros(masked);
      }
    }
  }

  lemma DoubleErrorSyndrome(k: nat, m: nat, codes: seq<Column>, p: nat, q: nat)
    requires MatrixOk(k, m, codes) && p < k + m && q < k + m
    ensures ErrorSyndrome(k, m, codes, XorWord(Unit(k + m, p), Unit(k + m, q)))
         == XorWord(FullColumn(k, m, codes, p), FullColumn(k, m, codes, q))
  {
    var a, b := Unit(k + m, p), Unit(k + m, q);
    SingleErrorSyndrome(k, m, codes, p);
    SingleErrorSyndrome(k, m, codes, q);
    forall j | 0 <= j < m
      ensures ErrorSyndrome(k, m, codes, XorWord(a, b))[j] ==
              XorWord(FullColumn(k, m, codes, p), FullColumn(k, m, codes, q))[j]
    {
      var mask := Masks(k, m, codes, true)[j];
      assert AndMask(XorWord(a, b), mask) == XorWord(AndMask(a, mask), AndMask(b, mask));
      XorAllLinear(AndMask(a, mask), AndMask(b, mask));
      assert ErrorSyndrome(k, m, codes, a)[j] == FullColumn(k, m, codes, p)[j];
      assert ErrorSyndrome(k, m, codes, b)[j] == FullColumn(k, m, codes, q)[j];
    }
  }

  // ----- code matrices of distance four -----

  /** Hsiao matrices: `k` distinct columns of odd weight at least three. */
  ghost predicate HsiaoMatrix(k: nat, m: nat, codes: seq<Column>) {
    && |codes| == k
    && (forall i :: 0 <= i < k ==> ColumnOk(codes[i], m) && |codes[i]| >= 3 && |codes[i]| % 2 == 1)
    && (forall a, b :: 0 <= a < b < k ==> codes[a] != codes[b])
  }

  /** Extended Hamming matrices: distinct data columns of weight at least three that all
      contain the last parity bit, which also covers every other parity bit. */
  ghost predicate HammingMatrix(k: nat, m: nat, codes: seq<Column>) {
    && m >= 1
    && |codes| == k + m - 1
    && (forall i :: 0 <= i < k ==> ColumnOk(codes[i], m) && |codes[i]| >= 3 && m - 1 in codes[i])
    && (forall a, b :: 0 <= a < b < k ==> codes[a] != codes[b])
    && (forall i :: k <= i < |codes| ==> codes[i] == [m - 1])
  }

  ghost predicate GoodMatrix(ct: CodeType, k: nat, m: nat, codes: seq<Column>) {
    && m >= 1
    && if ct.IsHamming() then HammingMatrix(k, m, codes) else HsiaoMatrix(k, m, codes)
  }

  /** The decoder's single-error test: a linear functional of the syndrome. */
  function OddTest(ct: CodeType, s: Word): bool
    requires |s| >= 1
  {
    if ct.IsHamming() then s[|s| - 1] else XorAll(s)
  }

  lemma OddTestLinear(ct: CodeType, a: Word, b: Word)
    requires |a| == |b| >= 1
    ensures OddTest(ct, XorWord(a, b)) == (OddTest(ct, a) != OddTest(ct, b))
  {
    XorAllLinear(a, b);
  }

  lemma GoodMatrixOk(ct: CodeType, k: nat, m: nat, codes: seq<Column>)
    requires GoodMatrix(ct, k, m, codes)
    ensures MatrixOk(k, m, codes)
  {
  }

  lemma DataColumn(ct: CodeType, k: nat, m: nat, codes: seq<Column>, p: nat)
    requires GoodMatrix(ct, k, m, codes) && p < k
    ensures FullColumn(k, m, codes, p) == ColumnBits(codes[p], m)
  {
  }

  /** Every code bit's column passes the single-error test. */
  lemma ColumnsAreOdd(ct: CodeType, k: nat, m: nat, codes: seq<Column>, p: nat)
    requires GoodMatrix(ct, k, m, codes) && p < k + m
    ensures OddTest(ct, FullColumn(k, m, codes, p))
  {
    if !ct.IsHamming() {
      if p < k {
        DataColumn(ct, k, m, codes, p);
        ColumnParity(codes[p], m);
      } else {
        assert FullColumn(k, m, codes, p) == Unit(m, p - k);
        XorAllUnit(m, p - k);
      }
    }
  }

  lemma ThreeEntries(c: Column, m: nat, x: nat, y: nat) returns (z: nat)
    requires ColumnOk(c, m) && |c| >= 3
    ensures z in c && z != x && z != y && z < m
  {
    assert c[0] < c[1] < c[2];
    z := if c[0] != x && c[0] != y then c[0] else if c[1] != x && c[1] != y then c[1] else c[2];
  }

  /** Columns of different code bits differ. */
  lemma ColumnsDiffer(ct: CodeType, k: nat, m: nat, codes: seq<Column>, p: nat, q: nat)
    requires GoodMatrix(ct, k, m, codes) && p < q < k + m
    ensures FullColumn(k, m, codes, p) != FullColumn(k, m, codes, q)
  {
    if q < k {
      DataColumn(ct, k, m, codes, p);
      DataColumn(ct, k, m, codes, q);
      if FullColumn(k, m, codes, p) == FullColumn(k, m, codes, q) {
        SameColumn(codes[p], codes[q], m);
      }
    } else if p < k {
      var z := ThreeEntries(codes[p], m, q - k, m - 1);
      assert FullColumn(k, m, codes, p)[z] && !FullColumn(k, m, codes, q)[z];
    } else {
      assert FullColumn(k, m, codes, p)[p - k];
      if q - k == m - 1 {
        assert !FullColumn(k, m, codes, q)[p - k];
      } else {
        assert FullColumn(k, m, codes, q)[q - k] && !FullColumn(k, m, codes, p)[q - k];
      }
    }
  }

  lemma DifferentWordsXor(a: Word, b: Word)
    requires |a| == |b| && a != b
    ensures AnyBit(XorWord(a, b))
  {
    var i :| 0 <= i < |a| && a[i] != b[i];
    assert XorWord(a, b)[i];
  }

  /** What the decoder makes of an even-class syndrome: no data bit is inverted. */
  lemma NoCorrection(ct: CodeType, k: nat, m: nat, codes: seq<Column>, x: Word)
    requires GoodMatrix(ct, k, m, codes) && |x| == k + m
    requires !OddTest(ct, Syndrome(ct, k, m, codes, x))
    ensures Decode(ct, k, m, codes, x).data == x[..k]
  {
    var s := Syndrome(ct, k, m, codes, x);
    forall i | 0 <= i < k
      ensures ToNat(s) != CalcSyndrome(codes[i])
    {
      SyndromeMatches(s, codes[i], m);
      DataColumn(ct, k, m, codes, i);
      ColumnsAreOdd(ct, k, m, codes, i);
    }
  }

  /** A syndrome equal to the column of code bit `p` makes the decoder invert exactly bit `p`. */
  lemma OneCorrection(ct: CodeType, k: nat, m: nat, codes: seq<Column>, x: Word, p: nat)
    requires GoodMatrix(ct, k, m, codes) && |x| == k + m && p < k + m
    requires Syndrome(ct, k, m, codes, x) == FullColumn(k, m, codes, p)
    ensures Decode(ct, k, m, codes, x).data == x[p := !x[p]][..k]
  {
    var s := Syndrome(ct, k, m, codes, x);
    forall i | 0 <= i < k
      ensures ToNat(s) == CalcSyndrome(codes[i]) <==> i == p
    {
      SyndromeMatches(s, codes[i], m);
      DataColumn(ct, k, m, codes, i);
      if i < p {
        ColumnsDiffer(ct, k, m, codes, i, p);
      } else if p < i {
        ColumnsDiffer(ct, k, m, codes, p, i);
      }
    }
  }

  lemma HammingErr1(s: Word)
    requires |s| >= 1 && !s[|s| - 1]
    ensures AnyBit(s[..|s| - 1]) == AnyBit(s)
  {
    if AnyBit(s) {
      var i :| 0 <= i < |s| && s[i];
      assert s[..|s| - 1][i];
    }
  }

  /** Both decoders compute `err_o` from the single-error test and the syndrome. */
  lemma ErrBits(ct: CodeType, k: nat, m: nat, codes: seq<Column>, x: Word)
    requires |x| == k + m && k <= |codes| && m >= 1
    ensures var d := Decode(ct, k, m, codes, x);
            && d.syndrome == Syndrome(ct, k, m, codes, x)
            && d.err0 == OddTest(ct, d.syndrome)
            && d.err1 == (!OddTest(ct, d.syndrome) && AnyBit(d.syndrome))
  {
    var s := Syndrome(ct, k, m, codes, x);
    if ct.IsHamming() && !s[m - 1] {
      HammingErr1(s);
    }
  }

  // ----- the SECDED theorem -----

  /** What the decoder must report about a word that encodes `data` but for the error `e`. */
  ghost predicate DecodedRight(d: Decoded, data: Word, e: Word)
    requires |e| >= |data|
  {
    && (d.err0 <==> CountOnes(e) == 1)
    && (d.err1 <==> CountOnes(e) == 2)
    && (AnyBit(d.syndrome) <==> CountOnes(e) > 0)
    && (CountOnes(e) < 2 ==> d.data == data)
    && (CountOnes(e) == 2 ==> d.data == XorWord(data, e[..|data|]))
  }

  /** For all data and every error pattern of at most two flips, over all k + m bits: the
      assertions of the generated testbench hold, one flip is corrected wherever it is, and
      on two flips the decoder leaves the data bits as received. */
  lemma SecdedTheorem(ct: CodeType, k: nat, m: nat, codes: seq<Column>, data: Word, e: Word)
    requires GoodMatrix(ct, k, m, codes)
    requires |data| == k && |e| == k + m && CountOnes(e) <= 2
    ensures DecodedRight(Decode(ct, k, m, codes, XorWord(Encode(ct, k, m, codes, data), e)), data, e)
  {
    EncodeKeepsData(ct, k, m, codes, data);
    SyndromeOfError(ct, k, m, codes, data, e);
    if CountOnes(e) == 0 {
      CleanWord(ct, k, m, codes, data, e);
    } else if CountOnes(e) == 1 {
      OneFlip(ct, k, m, codes, data, e);
    } else {
      TwoFlips(ct, k, m, codes, data, e);
    }
  }

  /** A received word whose error is `e`: the data bits and the syndrome it has. */
  ghost predicate Received(ct: CodeType, k: nat, m: nat, codes: seq<Column>, data: Word, e: Word) {
    && GoodMatrix(ct, k, m, codes) && MatrixOk(k, m, codes)
    && m >= 1 && k <= |codes|
    && |data| == k && |e| == k + m
    && Encode(ct, k, m, codes, data)[..k] == data
    && Syndrome(ct, k, m, codes, XorWord(Encode(ct, k, m, codes, data), e)) == ErrorSyndrome(k, m, codes, e)
  }

  /** Reading the report off the syndrome: its class, and the data bits that came out. */
  lemma Report(ct: CodeType, d: Decoded, data: Word, e: Word)
    requires |d.syndrome| >= 1 && |e| >= |data| && CountOnes(e) <= 2
    requires d.err0 == OddTest(ct, d.syndrome)
    requires d.err1 == (!OddTest(ct, d.syndrome) && AnyBit(d.syndrome))
    requires OddTest(ct, d.syndrome) <==> CountOnes(e) == 1
    requires AnyBit(d.syndrome) <==> CountOnes(e) > 0
    requires d.data == if CountOnes(e) == 2 then XorWord(data, e[..|data|]) else data
    ensures DecodedRight(d, data, e)
  {
  }

  lemma XorPrefix(w: Word, e: Word, k: nat)
    requires k <= |w| == |e|
    ensures XorWord(w, e)[..k] == XorWord(w[..k], e[..k])
  {
  }

  lemma CleanWord(ct: CodeType, k: nat, m: nat, codes: seq<Column>, data: Word, e: Word)
    requires Received(ct, k, m, codes, data, e) && CountOnes(e) == 0
    ensures DecodedRight(Decode(ct, k, m, codes, XorWord(Encode(ct, k, m, codes, data), e)), data, e)
  {
    hide Decode, Syndrome, ErrorSyndrome, FullColumn, GoodMatrix, MatrixOk, Encode, DecodedRight;
    var w := Encode(ct, k, m, codes, data);
    var x := XorWord(w, e);
    NoOnes(e);
    assert x == w;
    ZeroErrorSyndrome(k, m, codes);
    XorAllZeros(Zeros(m));
    ErrBits(ct, k, m, codes, x);
    NoCorrection(ct, k, m, codes, x);
    Report(ct, Decode(ct, k, m, codes, x), data, e);
  }

  lemma OneFlip(ct: CodeType, k: nat, m: nat, codes: seq<Column>, data: Word, e: Word)
    requires Received(ct, k, m, codes, data, e) && CountOnes(e) == 1
    ensures DecodedRight(Decode(ct, k, m, codes, XorWord(Encode(ct, k, m, codes, data), e)), data, e)
  {
    hide Decode, Syndrome, ErrorSyndrome, FullColumn, GoodMatrix, MatrixOk, Encode, DecodedRight;
    var w := Encode(ct, k, m, codes, data);
    var x := XorWord(w, e);
    var p := OneOne(e);
    assert x[p := !x[p]] == w;
    SingleErrorSyndrome(k, m, codes, p);
    ColumnsAreOdd(ct, k, m, codes, p);
    OddTestNeedsBit(ct, FullColumn(k, m, codes, p));
    ErrBits(ct, k, m, codes, x);
    OneCorrection(ct, k, m, codes, x, p);
    Report(ct, Decode(ct, k, m, codes, x), data, e);
  }

  lemma TwoFlips(ct: CodeType, k: nat, m: nat, codes: seq<Column>, data: Word, e: Word)
    requires Received(ct, k, m, codes, data, e) && CountOnes(e) == 2
    ensures DecodedRight(Decode(ct, k, m, codes, XorWord(Encode(ct, k, m, codes, data), e)), data, e)
  {
    hide Decode, Syndrome, ErrorSyndrome, FullColumn, GoodMatrix, MatrixOk, Encode, DecodedRight;
    var x := XorWord(Encode(ct, k, m, codes, data), e);
    XorPrefix(Encode(ct, k, m, codes, data), e, k);
    TwoFlipsSyndrome(ct, k, m, codes, e);
    ErrBits(ct, k, m, codes, x);
    NoCorrection(ct, k, m, codes, x);
    Report(ct, Decode(ct, k, m, codes, x), data, e);
  }

  lemma TwoFlipsSyndrome(ct: CodeType, k: nat, m: nat, codes: seq<Column>, e: Word)
    requires GoodMatrix(ct, k, m, codes) && |e| == k + m && CountOnes(e) == 2
    ensures var s := ErrorSyndrome(k, m, codes, e); !OddTest(ct, s) && AnyBit(s)
  {
    hide *;
    GoodMatrixOk(ct, k, m, codes);
    var p, q := TwoOnes(e);
    DoubleErrorSyndrome(k, m, codes, p, q);
    TwoColumns(ct, k, m, codes, p, q);
  }

  lemma TwoColumns(ct: CodeType, k: nat, m: nat, codes: seq<Column>, p: nat, q: nat)
    requires GoodMatrix(ct, k, m, codes) && p < q < k + m
    ensures var s := XorWord(FullColumn(k, m, codes, p), FullColumn(k, m, codes, q));
            !OddTest(ct, s) && AnyBit(s)
  {
    var a, b := FullColumn(k, m, codes, p), FullColumn(k, m, codes, q);
    ColumnsAreOdd(ct, k, m, codes, p);
    ColumnsAreOdd(ct, k, m, codes, q);
    OddTestLinear(ct, a, b);
    ColumnsDiffer(ct, k, m, codes, p, q);
    DifferentWordsXor(a, b);
  }

  lemma OddTestNeedsBit(ct: CodeType, s: Word)
    requires |s| >= 1 && OddTest(ct, s)
    ensures AnyBit(s)
  {
    if !AnyBit(s) {
      XorAllZeros(s);
    }
  }

  lemma EncodeKeepsData(ct: CodeType, k: nat, m: nat, codes: seq<Column>, data: Word)
    requires |data| == k && MatrixOk(k, m, codes)
    ensures Encode(ct, k, m, codes, data)[..k] == data
  {
    PlainSolves(k, m, codes, data);
    forall i | 0 <= i < k
      ensures Encode(ct, k, m, codes, data)[i] == data[i]
    {
      InvWordBit(ct, k, m, i);
      assert Plain(k, m, codes, data)[i] == Plain(k, m, codes, data)[..k][i];
    }
  }
}
