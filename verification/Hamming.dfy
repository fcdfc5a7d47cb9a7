/** The extended Hamming matrix: column `i` of the data bits spells the binary digits of the
    `i`-th position that is not a power of two, plus the overall parity bit. */
module HammingGen {
  import opened Bits
  import opened Secded

  /** `b & (b - 1)` is non-zero. */
  predicate IsDataPosition(b: nat)
    requires b >= 1
  {
    BitAnd(b, b - 1) != 0
  }

  function DataPositions(lo: nat, hi: nat): seq<nat>
    requires lo >= 1
    decreases hi - lo
  {
    if lo >= hi then []
    else (if IsDataPosition(lo) then [lo] else []) + DataPositions(lo + 1, hi)
  }

  function HammingColumn(b: nat, last: nat): Column {
    OnePositions(b, 0, last) + [last]
  }

  function HammingCode(k: nat, m: nat): seq<Column>
    requires m >= 1
  {
    var dataBits := DataPositions(1, k + m);
    seq(|dataBits|, i requires 0 <= i < |dataBits| => HammingColumn(dataBits[i], m - 1))
    + seq(m - 1, i => [m - 1])
  }

  // ----- positions that are powers of two -----

  lemma {:induction false} AndSelf(h: nat)
    ensures BitAnd(h, h) == h
  {
    if h > 0 {
      AndSelf(h / 2);
    }
  }

  lemma {:induction false} DataPositionIffNotPower(b: nat)
    requires b >= 1
    ensures IsDataPosition(b) <==> forall n: nat :: b != Pow2(n)
  {
    if b == 1 {
      assert b == Pow2(0);
    } else if b % 2 == 1 {
      assert b / 2 == (b - 1) / 2;
      AndSelf(b / 2);
      forall n: nat
        ensures b != Pow2(n)
      {
      }
    } else {
      var h := b / 2;
      assert (b - 1) / 2 == h - 1;
      assert IsDataPosition(b) == IsDataPosition(h);
      DataPositionIffNotPower(h);
      forall n: nat
        ensures b == Pow2(n + 1) <==> h == Pow2(n)
      {
      }
      if !IsDataPosition(b) {
        var n: nat :| h == Pow2(n);
        assert b == Pow2(n + 1);
      } else {
        forall n: nat
          ensures b != Pow2(n)
        {
          assert n > 0 ==> h != Pow2(n - 1);
        }
      }
    }
  }

  /** Number of powers of two below `t`. */
  function PowersBelow(t: nat): (n: nat) {
    if t <= 1 then 0
    else if exists n: nat :: n < t && t - 1 == Pow2(n) then 1 + PowersBelow(t - 1)
    else PowersBelow(t - 1)
  }

  /** `PowersBelow(t)` is the least `n` with `2^n >= t`. */
  lemma {:induction false} PowersBelowLeast(t: nat, n: nat)
    requires t >= 1
    ensures PowersBelow(t) <= n <==> t <= Pow2(n)
  {
    if t > 1 {
      var c := PowersBelow(t - 1);
      PowersBelowLeast(t - 1, n);
      PowersBelowLeast(t - 1, c);
      if h: nat :| h < t && t - 1 == Pow2(h) {
        PowersBelowLeast(t - 1, h);
        if h > 0 {
          PowersBelowLeast(t - 1, h - 1);
        }
        assert c == h;
        Pow2Monotone(h, n);
      } else if t - 1 == Pow2(n) {
        Pow2Above(n);
      }
    }
  }

  lemma {:induction false} DataPositionsSnoc(lo: nat, hi: nat)
    requires 1 <= lo <= hi
    ensures DataPositions(lo, hi + 1) == DataPositions(lo, hi) + if IsDataPosition(hi) then [hi] else []
    decreases hi - lo
  {
    if lo < hi {
      DataPositionsSnoc(lo + 1, hi);
    } else {
      assert DataPositions(hi + 1, hi + 1) == [];
    }
  }

  lemma {:induction false} DataPositionsCount(t: nat)
    requires t >= 1
    ensures |DataPositions(1, t)| == t - 1 - PowersBelow(t)
  {
    if t > 1 {
      DataPositionsCount(t - 1);
      DataPositionsSnoc(1, t - 1);
      DataPositionIffNotPower(t - 1);
      if n: nat :| t - 1 == Pow2(n) {
        Pow2Above(n);
      }
    }
  }

  /** The construction yields exactly `k` data columns iff `m - 1` is the number of parity
      positions below `k + m`. */
  lemma HammingColumnCount(k: nat, m: nat)
    requires m >= 2
    ensures |HammingCode(k, m)| == k + m - 1 <==> Pow2(m - 2) < k + m <= Pow2(m - 1)
  {
    DataPositionsCount(k + m);
    PowersBelowLeast(k + m, m - 1);
    PowersBelowLeast(k + m, m - 2);
  }

  lemma {:induction false} DataPositionsMembers(lo: nat, hi: nat)
    requires lo >= 1
    ensures Ascending(DataPositions(lo, hi))
    ensures forall i :: 0 <= i < |DataPositions(lo, hi)| ==>
      lo <= DataPositions(lo, hi)[i] < hi && IsDataPosition(DataPositions(lo, hi)[i])
    decreases hi - lo
  {
    if lo < hi {
      DataPositionsMembers(lo + 1, hi);
    }
  }

  /** A column of a position, read as a syndrome constant, is the position itself. */
  lemma OnePositionsValue(b: nat, n: nat)
    requires b < Pow2(n)
    ensures CalcSyndrome(OnePositions(b, 0, n)) == b
  {
    OnePositionsMembers(b, 0, n);
    forall i: nat
      ensures BitAt(CalcSyndrome(OnePositions(b, 0, n)), i) == BitAt(b, i)
    {
      CalcSyndromeBit(OnePositions(b, 0, n), i);
      if i >= n {
        BitAtBound(b, n, i);
      }
    }
    BitsDetermine(CalcSyndrome(OnePositions(b, 0, n)), b);
  }

  lemma SingletonValue(c: Column)
    ensures |c| == 1 ==> CalcSyndrome(c) == Pow2(c[0])
  {
    if |c| == 1 {
      assert c[..0] == [];
      assert CalcSyndrome([]) == 0;
    }
  }

  lemma HammingColumnShape(b: nat, last: nat)
    requires 1 <= b < Pow2(last) && IsDataPosition(b)
    ensures ColumnOk(HammingColumn(b, last), last + 1)
    ensures |HammingColumn(b, last)| >= 3 && last in HammingColumn(b, last)
  {
    var ones := OnePositions(b, 0, last);
    OnePositionsMembers(b, 0, last);
    OnePositionsValue(b, last);
    DataPositionIffNotPower(b);
    assert forall i :: 0 <= i < |ones| ==> ones[i] in ones;
    SingletonValue(ones);
    assert HammingColumn(b, last)[|ones|] == last;
  }

  lemma HammingColumnsDiffer(a: nat, b: nat, last: nat)
    requires a < Pow2(last) && b < Pow2(last) && a != b
    ensures HammingColumn(a, last) != HammingColumn(b, last)
  {
    OnePositionsValue(a, last);
    OnePositionsValue(b, last);
    var x, y := HammingColumn(a, last), HammingColumn(b, last);
    assert x[..|x| - 1] == OnePositions(a, 0, last);
    assert y[..|y| - 1] == OnePositions(b, 0, last);
  }

  /** The generated matrix has exactly the shape the decoder relies on, for all `k` and `m`
      with `2^(m-2) < k + m <= 2^(m-1)`. */
  lemma HammingIsGood(k: nat, m: nat)
    requires m >= 2 && Pow2(m - 2) < k + m <= Pow2(m - 1)
    ensures HammingMatrix(k, m, HammingCode(k, m))
  {
    var codes := HammingCode(k, m);
    var bits := DataPositions(1, k + m);
    HammingColumnCount(k, m);
    DataPositionsMembers(1, k + m);
    assert |bits| == k;
    hide HammingColumn;
    forall i | 0 <= i < k
      ensures ColumnOk(codes[i], m) && |codes[i]| >= 3 && m - 1 in codes[i]
    {
      HammingColumnShape(bits[i], m - 1);
    }
    forall a, b | 0 <= a < b < k
      ensures codes[a] != codes[b]
    {
      HammingColumnsDiffer(bits[a], bits[b], m - 1);
    }
  }

  lemma {:induction false} DataPositionsAll(lo: nat, hi: nat, p: nat)
    requires lo >= 1
    ensures p in DataPositions(lo, hi) <==> lo <= p < hi && IsDataPosition(p)
    decreases hi - lo
  {
    if lo < hi {
      DataPositionsAll(lo + 1, hi, p);
    }
  }

  ghost predicate PowerOfTwo(p: nat) {
    exists n: nat :: p == Pow2(n)
  }

  lemma DataPositionNoPower(p: nat)
    requires p >= 1
    ensures IsDataPosition(p) <==> !PowerOfTwo(p)
  {
    DataPositionIffNotPower(p);
    if PowerOfTwo(p) {
      var n: nat :| p == Pow2(n);
      assert IsDataPosition(p) ==> p != Pow2(n);
    }
  }

  /** Which positions the columns spell: column `i` has the binary digits of the `i`-th number in
      1, ..., k + m - 1 that is not a power of two, followed by the overall parity bit. The columns
      after those of the data bits have the overall parity bit alone. */
  lemma HammingColumns(k: nat, m: nat) returns (b: seq<nat>)
    requires m >= 1
    ensures |HammingCode(k, m)| == |b| + m - 1
    ensures forall i, j :: 0 <= i < j < |b| ==> b[i] < b[j]
    ensures forall p: nat :: p in b <==> 1 <= p < k + m && !PowerOfTwo(p)
    ensures forall i :: 0 <= i < |b| ==>
              var c := HammingCode(k, m)[i];
              && Ascending(c) && c != [] && c[|c| - 1] == m - 1
              && forall j: nat :: j in c <==> j == m - 1 || (j < m - 1 && BitAt(b[i], j))
    ensures forall i :: |b| <= i < |b| + m - 1 ==> HammingCode(k, m)[i] == [m - 1]
  {
    b := DataPositions(1, k + m);
    DataPositionsMembers(1, k + m);
    forall p: nat
      ensures p in b <==> 1 <= p < k + m && !PowerOfTwo(p)
    {
      DataPositionsAll(1, k + m, p);
      if p >= 1 {
        DataPositionNoPower(p);
      }
    }
    forall i | 0 <= i < |b|
      ensures var c := HammingCode(k, m)[i];
              && Ascending(c) && c != [] && c[|c| - 1] == m - 1
              && forall j: nat :: j in c <==> j == m - 1 || (j < m - 1 && BitAt(b[i], j))
    {
      SpelledColumn(b[i], m - 1);
    }
  }

  lemma SpelledColumn(b: nat, last: nat)
    ensures var c := HammingColumn(b, last);
            && Ascending(c) && c != [] && c[|c| - 1] == last
            && forall j: nat :: j in c <==> j == last || (j < last && BitAt(b, j))
  {
    var ones := OnePositions(b, 0, last);
    OnePositionsMembers(b, 0, last);
    assert forall i :: 0 <= i < |ones| ==> ones[i] in ones;
  }
}
