/** `itertools.combinations(range(m), s)`, its size, and how often each index occurs in it. */
module Combinations {
  import opened Sequences
  import opened Bits
  import opened Secded

  function Prepend(x: nat, cs: seq<Column>): (r: seq<Column>)
    ensures |r| == |cs|
  {
    seq(|cs|, i requires 0 <= i < |cs| => [x] + cs[i])
  }

  /** The ascending tuples of length `s` over `[lo, hi)`, in lexicographic order. */
  function Combos(lo: nat, hi: nat, s: nat): seq<Column>
    decreases if lo < hi then hi - lo else 0
  {
    if s == 0 then [[]]
    else if lo >= hi then []
    else Prepend(lo, Combos(lo + 1, hi, s - 1)) + Combos(lo + 1, hi, s)
  }

  function Choose(n: nat, k: nat): nat {
    if k == 0 then 1 else if n == 0 then 0 else Choose(n - 1, k - 1) + Choose(n - 1, k)
  }

  ghost predicate ComboOf(c: Column, lo: nat, hi: nat, s: nat) {
    |c| == s && Ascending(c) && forall a :: 0 <= a < |c| ==> lo <= c[a] < hi
  }

  lemma {:induction false} CombosSound(lo: nat, hi: nat, s: nat, i: nat)
    requires i < |Combos(lo, hi, s)|
    ensures ComboOf(Combos(lo, hi, s)[i], lo, hi, s)
    decreases if lo < hi then hi - lo else 0
  {
    if s > 0 {
      var first := Combos(lo + 1, hi, s - 1);
      if i < |first| {
        CombosSound(lo + 1, hi, s - 1, i);
        assert Combos(lo, hi, s)[i] == [lo] + first[i];
      } else {
        CombosSound(lo + 1, hi, s, i - |first|);
      }
    }
  }

  lemma {:induction false} CombosComplete(lo: nat, hi: nat, s: nat, c: Column) returns (i: nat)
    requires ComboOf(c, lo, hi, s)
    ensures i < |Combos(lo, hi, s)| && Combos(lo, hi, s)[i] == c
    decreases if lo < hi then hi - lo else 0
  {
    if s == 0 {
      i := 0;
    } else {
      var first := Combos(lo + 1, hi, s - 1);
      if c[0] == lo {
        i := CombosComplete(lo + 1, hi, s - 1, c[1..]);
        assert Combos(lo, hi, s)[i] == [lo] + c[1..];
      } else {
        var h := CombosComplete(lo + 1, hi, s, c);
        i := |first| + h;
      }
    }
  }

  lemma {:induction false} CombosDistinct(lo: nat, hi: nat, s: nat)
    ensures Distinct(Combos(lo, hi, s))
    decreases if lo < hi then hi - lo else 0
  {
    if s > 0 && lo < hi {
      var first, second := Combos(lo + 1, hi, s - 1), Combos(lo + 1, hi, s);
      var all := Combos(lo, hi, s);
      CombosDistinct(lo + 1, hi, s - 1);
      CombosDistinct(lo + 1, hi, s);
      forall i, j | 0 <= i < j < |all|
        ensures all[i] != all[j]
      {
        if j < |first| {
          assert all[i] == [lo] + first[i] && all[j] == [lo] + first[j];
          assert all[i][1..] == first[i] && all[j][1..] == first[j];
        } else {
          CombosSound(lo + 1, hi, s, j - |first|);
          if i < |first| {
            assert all[i][0] == lo;
          }
        }
      }
    }
  }

  /** The order of the tuples: where two of them first differ, the earlier has the smaller entry. */
  ghost predicate LexLess(a: Column, b: Column) {
    exists n :: 0 <= n < |a| && n < |b| && a[..n] == b[..n] && a[n] < b[n]
  }

  lemma LexPrepend(x: nat, a: Column, b: Column)
    requires LexLess(a, b)
    ensures LexLess([x] + a, [x] + b)
  {
    var n :| 0 <= n < |a| && n < |b| && a[..n] == b[..n] && a[n] < b[n];
    assert ([x] + a)[..n + 1] == [x] + a[..n] && ([x] + b)[..n + 1] == [x] + b[..n];
    assert ([x] + a)[n + 1] < ([x] + b)[n + 1];
  }

  lemma {:induction false} CombosInOrder(lo: nat, hi: nat, s: nat, i: nat, j: nat)
    requires i < j < |Combos(lo, hi, s)|
    ensures LexLess(Combos(lo, hi, s)[i], Combos(lo, hi, s)[j])
    decreases if lo < hi then hi - lo else 0
  {
    if s > 0 {
      var first, all := Combos(lo + 1, hi, s - 1), Combos(lo, hi, s);
      if j < |first| {
        CombosInOrder(lo + 1, hi, s - 1, i, j);
        LexPrepend(lo, first[i], first[j]);
      } else if i >= |first| {
        CombosInOrder(lo + 1, hi, s, i - |first|, j - |first|);
      } else {
        CombosSound(lo + 1, hi, s, j - |first|);
        assert all[i][0] == lo && all[i][..0] == all[j][..0];
      }
    }
  }

  lemma {:induction false} CombosCount(lo: nat, hi: nat, s: nat)
    requires lo <= hi
    ensures |Combos(lo, hi, s)| == Choose(hi - lo, s)
    decreases hi - lo
  {
    if s > 0 && lo < hi {
      CombosCount(lo + 1, hi, s - 1);
      CombosCount(lo + 1, hi, s);
    }
  }

  // ----- fan-in of a list of columns -----

  /** Number of columns that contain `e`. */
  function Fanin(codes: seq<Column>, e: nat): nat {
    if codes == [] then 0 else B2N(e in codes[0]) + Fanin(codes[1..], e)
  }

  function Weight(codes: seq<Column>): nat {
    if codes == [] then 0 else |codes[0]| + Weight(codes[1..])
  }

  lemma {:induction false} FaninAppend(a: seq<Column>, b: seq<Column>, e: nat)
    ensures Fanin(a + b, e) == Fanin(a, e) + Fanin(b, e)
  {
    if a == [] {
      assert a + b == b;
    } else {
      assert (a + b)[1..] == a[1..] + b;
      FaninAppend(a[1..], b, e);
    }
  }

  lemma {:induction false} WeightAppend(a: seq<Column>, b: seq<Column>)
    ensures Weight(a + b) == Weight(a) + Weight(b)
  {
    if a == [] {
      assert a + b == b;
    } else {
      assert (a + b)[1..] == a[1..] + b;
      WeightAppend(a[1..], b);
    }
  }

  lemma {:induction false} UniformWeight(codes: seq<Column>, s: nat)
    requires forall i :: 0 <= i < |codes| ==> |codes[i]| == s
    ensures Weight(codes) == |codes| * s
  {
    if codes != [] {
      UniformWeight(codes[1..], s);
      assert |codes| * s == s + (|codes| - 1) * s;
    }
  }

  lemma {:induction false} FaninPrepend(x: nat, cs: seq<Column>, e: nat)
    ensures Fanin(Prepend(x, cs), e) == if e == x then |cs| else Fanin(cs, e)
  {
    if cs != [] {
      assert Prepend(x, cs)[1..] == Prepend(x, cs[1..]);
      FaninPrepend(x, cs[1..], e);
    }
  }

  lemma {:induction false} FaninAbsent(cs: seq<Column>, e: nat)
    requires forall i :: 0 <= i < |cs| ==> e !in cs[i]
    ensures Fanin(cs, e) == 0
  {
    if cs != [] {
      FaninAbsent(cs[1..], e);
    }
  }

  lemma CombosAbsent(lo: nat, hi: nat, s: nat, e: nat)
    requires e < lo
    ensures Fanin(Combos(lo, hi, s), e) == 0
  {
    var cs := Combos(lo, hi, s);
    forall i | 0 <= i < |cs|
      ensures e !in cs[i]
    {
      CombosSound(lo, hi, s, i);
    }
    FaninAbsent(cs, e);
  }

  lemma CombosFaninLow(lo: nat, hi: nat, s: nat)
    requires lo < hi && s >= 1
    ensures Fanin(Combos(lo, hi, s), lo) == Choose(hi - lo - 1, s - 1)
  {
    hide Combos, Choose, Fanin, Prepend;
    var first, second := Combos(lo + 1, hi, s - 1), Combos(lo + 1, hi, s);
    CombosSplit(lo, hi, s);
    FaninAppend(Prepend(lo, first), second, lo);
    FaninPrepend(lo, first, lo);
    CombosAbsent(lo + 1, hi, s, lo);
    CombosCount(lo + 1, hi, s - 1);
  }

  lemma CombosSplit(lo: nat, hi: nat, s: nat)
    requires lo < hi && s >= 1
    ensures Combos(lo, hi, s) == Prepend(lo, Combos(lo + 1, hi, s - 1)) + Combos(lo + 1, hi, s)
  {
  }

  lemma CombosFaninHigh(lo: nat, hi: nat, s: nat, e: nat)
    requires lo < e < hi && s >= 1
    ensures Fanin(Combos(lo, hi, s), e) == Fanin(Combos(lo + 1, hi, s - 1), e) + Fanin(Combos(lo + 1, hi, s), e)
  {
    hide Combos, Fanin, Prepend;
    var first := Combos(lo + 1, hi, s - 1);
    CombosSplit(lo, hi, s);
    FaninAppend(Prepend(lo, first), Combos(lo + 1, hi, s), e);
    FaninPrepend(lo, first, e);
  }

  /** Every index occurs in the same number of combinations. */
  lemma {:induction false} CombosFanin(lo: nat, hi: nat, s: nat, e: nat)
    requires lo <= e < hi && s >= 1
    ensures Fanin(Combos(lo, hi, s), e) == Choose(hi - lo - 1, s - 1)
    decreases hi - lo
  {
    hide Combos;
    if e == lo {
      CombosFaninLow(lo, hi, s);
    } else {
      CombosFaninHigh(lo, hi, s, e);
      CombosFanin(lo + 1, hi, s, e);
      if s == 1 {
        EmptyColumnFanin(lo + 1, hi, e);
      } else {
        CombosFanin(lo + 1, hi, s - 1, e);
        ChoosePascal(hi - lo - 1, s - 1);
      }
    }
  }

  lemma EmptyColumnFanin(lo: nat, hi: nat, e: nat)
    ensures Fanin(Combos(lo, hi, 0), e) == 0
  {
    FaninAbsent([[]], e);
  }

  lemma ChoosePascal(n: nat, k: nat)
    requires n >= 1 && k >= 1
    ensures Choose(n, k) == Choose(n - 1, k - 1) + Choose(n - 1, k)
  {
  }

  // ----- binomial sums -----

  lemma {:induction false} ChooseZero(n: nat, k: nat)
    requires k > n
    ensures Choose(n, k) == 0
  {
    if n > 0 {
      ChooseZero(n - 1, k - 1);
      ChooseZero(n - 1, k);
    }
  }

  lemma AbsorptionStep(a: nat, b: nat, c: nat, d: nat, m: nat, s: nat)
    requires m >= 1 && s >= 1
    requires (s - 1) * a == (m - 1) * c && s * b == (m - 1) * d && a == c + d
    ensures s * (a + b) == m * a
  {
    assert s * (a + b) == a + (s - 1) * a + s * b;
    assert (m - 1) * a == (m - 1) * c + (m - 1) * d;
  }

  /** `s * C(m, s) == m * C(m - 1, s - 1)`. */
  lemma {:induction false} Absorption(m: nat, s: nat)
    requires m >= 1 && s >= 1
    ensures s * Choose(m, s) == m * Choose(m - 1, s - 1)
    decreases m
  {
    if m == 1 {
      if s > 1 {
        ChooseZero(1, s);
        ChooseZero(0, s - 1);
      }
    } else if s == 1 {
      ChooseOne(m);
    } else {
      Absorption(m - 1, s);
      Absorption(m - 1, s - 1);
      AbsorptionStep(Choose(m - 1, s - 1), Choose(m - 1, s), Choose(m - 2, s - 2), Choose(m - 2, s - 1), m, s);
    }
  }

  /** Sum of `C(n, t)` for `t` in `s, s+1, ..., n`. */
  function RowSum(n: nat, s: nat): nat
    decreases n + 1 - s
  {
    if s > n then 0 else Choose(n, s) + RowSum(n, s + 1)
  }

  /** Number of subsets of `m` rows of size `s, s+2, s+4, ...`. */
  function LayerSum(m: nat, s: nat): nat
    decreases m + 2 - s
  {
    if s > m then 0 else Choose(m, s) + LayerSum(m, s + 2)
  }

  lemma {:induction false} RowSumPascal(n: nat, s: nat)
    requires n >= 1 && s >= 1
    ensures RowSum(n, s) == RowSum(n - 1, s - 1) + RowSum(n - 1, s)
    decreases n + 1 - s
  {
    if s <= n {
      RowSumPascal(n, s + 1);
      if s == n {
        ChooseZero(n - 1, n);
      }
    }
  }

  lemma {:induction false} RowSumTotal(n: nat)
    ensures RowSum(n, 0) == Pow2(n)
  {
    if n == 0 {
      assert RowSum(0, 0) == Choose(0, 0) + RowSum(0, 1);
    } else {
      RowSumPascal(n, 1);
      RowSumTotal(n - 1);
      assert RowSum(n, 0) == 1 + RowSum(n, 1);
      assert RowSum(n - 1, 0) == 1 + RowSum(n - 1, 1);
    }
  }

  lemma {:induction false} LayerSumIsRowSum(m: nat, s: nat)
    requires m >= 1 && s >= 1
    ensures LayerSum(m, s) == RowSum(m - 1, s - 1)
    decreases m + 2 - s
  {
    if s <= m {
      LayerSumIsRowSum(m, s + 2);
      if s == m {
        ChooseZero(m - 1, m);
      } else {
        assert RowSum(m - 1, s - 1) == Choose(m - 1, s - 1) + (Choose(m - 1, s) + RowSum(m - 1, s + 1));
      }
    }
  }

  /** There are `2^(m-1)` subsets of odd size, `m` of which are singletons. */
  lemma OddSubsets(m: nat)
    requires m >= 1
    ensures LayerSum(m, 3) == Pow2(m - 1) - m
  {
    LayerSumIsRowSum(m, 1);
    RowSumTotal(m - 1);
    assert LayerSum(m, 1) == Choose(m, 1) + LayerSum(m, 3);
    ChooseOne(m);
  }

  lemma {:induction false} ChooseOne(m: nat)
    ensures Choose(m, 1) == m
  {
    if m > 0 {
      ChooseOne(m - 1);
    }
  }

  // ----- double counting -----

  function Fanins(codes: seq<Column>, m: nat): (f: seq<nat>)
    ensures |f| == m
  {
    seq(m, e requires 0 <= e => Fanin(codes, e))
  }

  lemma {:induction false} SumAdd(a: seq<nat>, b: seq<nat>, c: seq<nat>)
    requires |a| == |b| == |c| && forall i :: 0 <= i < |a| ==> c[i] == a[i] + b[i]
    ensures Sum(c) == Sum(a) + Sum(b)
  {
    if a != [] {
      SumAdd(a[1..], b[1..], c[1..]);
    }
  }

  lemma {:induction false} SumZeros(a: seq<nat>)
    requires forall i :: 0 <= i < |a| ==> a[i] == 0
    ensures Sum(a) == 0
  {
    if a != [] {
      SumZeros(a[1..]);
    }
  }

  lemma {:induction false} SumBound(a: seq<nat>, bound: nat)
    requires forall i :: 0 <= i < |a| ==> a[i] <= bound
    ensures Sum(a) <= |a| * bound
  {
    if a != [] {
      SumBound(a[1..], bound);
      assert |a| * bound == bound + (|a| - 1) * bound;
    }
  }

  lemma {:induction false} SumUpdate(a: seq<nat>, i: nat, v: nat)
    requires i < |a|
    ensures Sum(a[i := v]) == Sum(a) - a[i] + v
  {
    if i == 0 {
      assert a[0 := v][1..] == a[1..];
    } else {
      assert a[i := v][1..] == a[1..][i - 1 := v];
      SumUpdate(a[1..], i - 1, v);
    }
  }

  lemma {:induction false} SumOfColumn(c: Column, m: nat)
    requires ColumnOk(c, m)
    ensures Sum(seq(m, e => B2N(e in c))) == |c|
    decreases |c|
  {
    var ind := seq(m, e => B2N(e in c));
    if c == [] {
      SumZeros(ind);
    } else {
      var init, last := c[..|c| - 1], c[|c| - 1];
      assert c == init + [last];
      SumOfColumn(init, m);
      var prev := seq(m, e => B2N(e in init));
      SumUpdate(prev, last, 1);
      assert ind == prev[last := 1];
    }
  }

  /** Summing the fan-ins over the rows is summing the weights over the columns. */
  lemma {:induction false} DoubleCounting(codes: seq<Column>, m: nat)
    requires forall i :: 0 <= i < |codes| ==> ColumnOk(codes[i], m)
    ensures Sum(Fanins(codes, m)) == Weight(codes)
  {
    if codes == [] {
      SumZeros(Fanins(codes, m));
    } else {
      var c := codes[0];
      DoubleCounting(codes[1..], m);
      SumOfColumn(c, m);
      SumAdd(seq(m, e => B2N(e in c)), Fanins(codes[1..], m), Fanins(codes, m));
    }
  }
}
