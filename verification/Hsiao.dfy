/** Generation of Hsiao matrices: the minimal number of parity bits, the ideal fan-in,
    and the randomised choice of the last layer of columns. */
module HsiaoGen {
  import opened Arith
  import opened Sequences
  import opened Bits
  import opened Secded
  import opened Combinations
  import opened Wrappers

  // ----- min_paritysize -----

  /** Number of columns of odd weight at least three over `m` parity bits. */
  function Capacity(m: nat): nat {
    LayerSum(m, 3)
  }

  /** `m` is the least number of parity bits with enough odd columns for `k` data bits. */
  ghost predicate LeastParity(k: nat, m: nat) {
    m >= 3 && forall h: nat :: h >= 1 ==> (Capacity(h) >= k <==> h >= m)
  }

  lemma {:induction false} ShortfallPersists(k: nat, m: nat, m': nat)
    requires 1 <= m <= m' && k >= 1 && Pow2(m' - 1) < k + m'
    ensures Pow2(m - 1) < k + m
    decreases m' - m
  {
    if m < m' {
      Pow2Above(m' - 1);
      ShortfallPersists(k, m, m' - 1);
    }
  }

  /** The least number of parity bits whose odd columns suffice for `k` data bits, or -1
      when more than ten would be needed. */
  method MinParitysize(k: nat) returns (r: int)
    ensures r == -1 || 3 <= r <= 10
    ensures k >= 1 && r != -1 ==> LeastParity(k, r)
    ensures k >= 1 && r == -1 ==> forall m: nat :: 1 <= m <= 10 ==> Capacity(m) < k
  {
    assert Pow2(1) == 2;
    for m := 2 to 10
      invariant k >= 1 ==> Pow2(m - 1) < k + m
    {
      if Pow2(m) >= k + m + 1 {
        forall h: nat | k >= 1 && h >= 1
          ensures Capacity(h) >= k <==> h >= m + 1
        {
          OddSubsets(h);
          if h >= m + 1 && Pow2(h - 1) < k + h {
            ShortfallPersists(k, m + 1, h);
          }
          if h <= m {
            ShortfallPersists(k, h, m);
          }
        }
        return m + 1;
      }
    }
    forall h: nat | k >= 1 && 1 <= h <= 10
      ensures Capacity(h) < k
    {
      OddSubsets(h);
      ShortfallPersists(k, h, 10);
    }
    r := -1;
  }

  // ----- total weight and fan-in -----

  /** The least total weight of `n` distinct columns whose weights are `s, s+2, ...`:
      whole layers first, then part of the next one. */
  function MinWeight(n: nat, m: nat, s: nat): nat
    decreases m + 2 - s
  {
    if s > m then 0
    else if Choose(m, s) <= n then Choose(m, s) * s + MinWeight(n - Choose(m, s), m, s + 2)
    else n * s
  }

  function CeilDiv(a: nat, b: nat): nat
    requires b > 0
  {
    (a + b - 1) / b
  }

  lemma CeilDivShift(b: nat, q: nat, a: nat)
    requires b > 0
    ensures CeilDiv(b * q + a, b) == q + CeilDiv(a, b)
  {
    DivShift(b, q, a + b - 1);
  }

  lemma DivShift(b: nat, q: nat, a: nat)
    requires b > 0
    ensures (b * q + a) / b == q + a / b
  {
    assert (q + a / b) * b == q * b + (a / b) * b;
    DivModUnique(b * q + a, b, q + a / b, a % b);
  }

  lemma {:induction false} MulLess(b: nat, x: nat, y: nat)
    ensures x <= y ==> b * x <= b * y
    ensures x < y ==> b * x + b <= b * y
    decreases y
  {
    if x < y {
      MulLess(b, x, y - 1);
      assert b * y == b * (y - 1) + b;
    }
  }

  /** `CeilDiv(a, b)` is the least `c` with `b * c >= a`. */
  lemma CeilDivLeast(a: nat, b: nat, c: nat)
    requires b > 0
    ensures CeilDiv(a, b) <= c <==> a <= b * c
  {
    var q, r := (a + b - 1) / b, (a + b - 1) % b;
    assert a + b - 1 == b * q + r;
    MulLess(b, q, c);
    MulLess(b, c, q);
  }

  /** Fan-in of every row when the layers below `s` are complete. */
  function FullFanin(m: nat, s: nat): nat
    requires m >= 1
    decreases s
  {
    if s < 5 then 0 else Choose(m - 1, s - 3) + FullFanin(m, s - 2)
  }

  /** The loop over layers, with the sizes of the lists of combinations. */
  method IdealFanin(k: nat, m: nat) returns (fanin: nat)
    requires m >= 1
    ensures fanin == CeilDiv(MinWeight(k, m, 3), m)
  {
    hide Combos, Choose, MinWeight, CeilDiv, Accounted;
    fanin := 0;
    var needed: nat := k;
    var select := 3;
    assert Accounted(MinWeight(k, m, 3), m, 3, k, 0) by { NoLayers(k, m); }
    while select < m + 1
      invariant select >= 3
      invariant Accounted(MinWeight(k, m, 3), m, select, needed, fanin)
    {
      var combinations := Combos(0, m, select);
      CombosCount(0, m, select);
      if |combinations| <= needed {
        LayerTaken(MinWeight(k, m, 3), m, select, needed, fanin);
        fanin := fanin + CeilDiv(|combinations| * select, m);
        needed := needed - |combinations|;
      } else {
        LastLayer(MinWeight(k, m, 3), m, select, needed, fanin);
        fanin := fanin + CeilDiv(needed * select, m);
        return;
      }
      if needed == 0 {
        NoneNeeded(MinWeight(k, m, 3), m, select + 2, needed, fanin);
        return;
      }
      select := select + 2;
    }
    NoneNeeded(MinWeight(k, m, 3), m, select, needed, fanin);
  }

  /** Rounding up the average of what a part of the layer of weight `s` adds. */
  lemma LastLayer(total: nat, m: nat, s: nat, needed: nat, fanin: nat)
    requires 1 <= s <= m && needed < Choose(m, s) && Accounted(total, m, s, needed, fanin)
    ensures fanin + CeilDiv(needed * s, m) == CeilDiv(total, m)
  {
    CeilDivShift(m, fanin, needed * s);
  }

  lemma NoneNeeded(total: nat, m: nat, s: nat, needed: nat, fanin: nat)
    requires m >= 1 && (needed == 0 || s > m) && Accounted(total, m, s, needed, fanin)
    ensures fanin == CeilDiv(total, m)
  {
    if needed == 0 {
      MinWeightZero(m, s);
    }
    CeilDivShift(m, fanin, 0);
  }

  /** `total` is split into complete layers, `fanin` ones in every row, and the rest. */
  ghost predicate Accounted(total: nat, m: nat, s: nat, needed: nat, fanin: nat) {
    total == m * fanin + MinWeight(needed, m, s)
  }

  /** A complete layer adds the same whole number to every row. */
  lemma LayerTaken(total: nat, m: nat, s: nat, needed: nat, fanin: nat)
    requires 1 <= s <= m && Choose(m, s) <= needed && Accounted(total, m, s, needed, fanin)
    ensures CeilDiv(Choose(m, s) * s, m) == Choose(m - 1, s - 1)
    ensures Accounted(total, m, s + 2, needed - Choose(m, s), fanin + Choose(m - 1, s - 1))
  {
    Absorption(m, s);
    LayerArithmetic(total, m, s, Choose(m, s), Choose(m - 1, s - 1), fanin, MinWeight(needed - Choose(m, s), m, s + 2));
  }

  lemma LayerArithmetic(total: nat, m: nat, s: nat, count: nat, layer: nat, fanin: nat, rest: nat)
    requires m >= 1 && s * count == m * layer && total == m * fanin + (count * s + rest)
    ensures CeilDiv(count * s, m) == layer
    ensures total == m * (fanin + layer) + rest
  {
    CeilDivShift(m, layer, 0);
    assert m * (fanin + layer) == m * fanin + m * layer;
  }

  lemma {:induction false} MinWeightZero(m: nat, s: nat)
    ensures MinWeight(0, m, s) == 0
    decreases m + 2 - s
  {
    if s <= m && Choose(m, s) == 0 {
      MinWeightZero(m, s + 2);
    }
  }

  method CalcFanin(width: nat, codes: seq<Column>) returns (fanins: seq<nat>)
    requires forall i :: 0 <= i < |codes| ==> ColumnOk(codes[i], width)
    ensures fanins == Fanins(codes, width)
  {
    var counts := new nat[width](_ => 0);
    for i := 0 to |codes|
      invariant forall e :: 0 <= e < width ==> counts[e] == Fanin(codes[..i], e)
    {
      var c := codes[i];
      for a := 0 to |c|
        invariant forall e :: 0 <= e < width ==> counts[e] == Fanin(codes[..i], e) + B2N(e in c[..a])
      {
        assert c[..a + 1] == c[..a] + [c[a]];
        assert c[a] !in c[..a];
        counts[c[a]] := counts[c[a]] + 1;
      }
      assert c[..|c|] == c;
      forall e | 0 <= e < width
        ensures counts[e] == Fanin(codes[..i + 1], e)
      {
        assert codes[..i + 1] == codes[..i] + [c];
        FaninAppend(codes[..i], [c], e);
        assert Fanin([c], e) == B2N(e in c) + Fanin([], e);
      }
    }
    assert codes[..|codes|] == codes;
    fanins := counts[..];
  }

  // ----- shuffling -----

  /** `random.shuffle`: any permutation may come out. */
  method Shuffle(c: seq<Column>) returns (r: seq<Column>)
    ensures multiset(r) == multiset(c)
  {
    var rest := c;
    r := [];
    while rest != []
      invariant multiset(r) + multiset(rest) == multiset(c)
      decreases |rest|
    {
      var i :| 0 <= i < |rest|;
      assert rest == rest[..i] + [rest[i]] + rest[i + 1..];
      r := r + [rest[i]];
      rest := rest[..i] + rest[i + 1..];
    }
  }

  lemma DistinctCounts<T(!new)>(s: seq<T>)
    ensures Distinct(s) <==> forall x :: multiset(s)[x] <= 1
  {
    if Distinct(s) {
      forall x
        ensures multiset(s)[x] <= 1
      {
        DistinctCount(s, x);
      }
    } else {
      var i, j :| 0 <= i < j < |s| && s[i] == s[j];
      assert s == s[..i] + [s[i]] + s[i + 1..j] + [s[j]] + s[j + 1..];
      assert multiset(s)[s[i]] >= 2;
    }
  }

  lemma {:induction false} DistinctCount<T(!new)>(s: seq<T>, x: T)
    requires Distinct(s)
    ensures multiset(s)[x] <= 1
  {
    if s != [] {
      assert s == [s[0]] + s[1..];
      DistinctCount(s[1..], x);
      if s[0] == x {
        assert x !in s[1..];
      }
    }
  }

  lemma PermutedMembers(r: seq<Column>, c: seq<Column>)
    requires multiset(r) == multiset(c)
    ensures |r| == |c|
    ensures forall i :: 0 <= i < |r| ==> r[i] in c
    ensures Distinct(c) ==> Distinct(r)
  {
    assert |multiset(r)| == |multiset(c)|;
    forall i | 0 <= i < |r|
      ensures r[i] in c
    {
      assert r[i] in multiset(r);
    }
    DistinctCounts(r);
    DistinctCounts(c);
  }

  // ----- the generator -----

  /** All columns of weight `3, 5, ..., s - 2`, in the order the generator lists them. */
  ghost function FullLayers(m: nat, s: nat): seq<Column>
    decreases s
  {
    if s < 5 then [] else FullLayers(m, s - 2) + Combos(0, m, s - 2)
  }

  lemma CombosColumns(m: nat, s: nat)
    ensures forall i :: 0 <= i < |Combos(0, m, s)| ==> ColumnOk(Combos(0, m, s)[i], m) && |Combos(0, m, s)[i]| == s
  {
    var cs := Combos(0, m, s);
    forall i | 0 <= i < |cs|
      ensures ColumnOk(cs[i], m) && |cs[i]| == s
    {
      CombosSound(0, m, s, i);
    }
  }

  /** Odd columns of weight at least three and less than `s`, all different. */
  ghost predicate LayersBelow(cs: seq<Column>, m: nat, s: nat) {
    && Distinct(cs)
    && forall i :: 0 <= i < |cs| ==> ColumnOk(cs[i], m) && 3 <= |cs[i]| < s && |cs[i]| % 2 == 1
  }

  /** Columns of weight `s` that are new to `cs`. */
  lemma AddLayer(cs: seq<Column>, layer: seq<Column>, m: nat, s: nat)
    requires s >= 3 && s % 2 == 1 && LayersBelow(cs, m, s) && Distinct(layer)
    requires forall i :: 0 <= i < |layer| ==> ColumnOk(layer[i], m) && |layer[i]| == s
    ensures LayersBelow(cs + layer, m, s + 2)
  {
  }

  lemma {:induction false} FullLayersBelow(m: nat, s: nat)
    requires s >= 3 && s % 2 == 1
    ensures LayersBelow(FullLayers(m, s), m, s)
    decreases s
  {
    if s >= 5 {
      var below, layer := FullLayers(m, s - 2), Combos(0, m, s - 2);
      FullLayersBelow(m, s - 2);
      CombosColumns(m, s - 2);
      CombosDistinct(0, m, s - 2);
      AddLayer(below, layer, m, s - 2);
    }
  }

  lemma {:induction false} FullLayersFanin(m: nat, s: nat, e: nat)
    requires e < m && s >= 3 && s % 2 == 1
    ensures Fanin(FullLayers(m, s), e) == FullFanin(m, s)
    decreases s
  {
    if s >= 5 {
      assert FullLayers(m, s) == FullLayers(m, s - 2) + Combos(0, m, s - 2);
      hide Combos, FullLayers;
      FullLayersFanin(m, s - 2, e);
      FaninAppend(FullLayers(m, s - 2), Combos(0, m, s - 2), e);
      CombosFanin(0, m, s - 2, e);
    }
  }

  lemma {:induction false} FullLayersCount(m: nat, s: nat)
    requires 3 <= s <= m + 2 && s % 2 == 1
    ensures |FullLayers(m, s)| + LayerSum(m, s) == LayerSum(m, 3)
    decreases s
  {
    if s >= 5 {
      FullLayersCount(m, s - 2);
      CombosCount(0, m, s - 2);
    }
  }

  lemma FullLayersShape(m: nat, s: nat)
    requires m >= 1 && s >= 3 && s % 2 == 1
    ensures LayersBelow(FullLayers(m, s), m, s)
    ensures forall e :: 0 <= e < m ==> Fanin(FullLayers(m, s), e) == FullFanin(m, s)
    ensures s <= m + 2 ==> |FullLayers(m, s)| + LayerSum(m, s) == LayerSum(m, 3)
  {
    FullLayersBelow(m, s);
    forall e | 0 <= e < m
      ensures Fanin(FullLayers(m, s), e) == FullFanin(m, s)
    {
      FullLayersFanin(m, s, e);
    }
    if s <= m + 2 {
      FullLayersCount(m, s);
    }
  }

  /** The first `full` columns are all odd columns of weight at least three and less than `s`, by
      weight, and in lexicographic order among those of a weight; the others have weight `s` and
      are not all of that weight. */
  ghost predicate Layered(codes: seq<Column>, m: nat, full: nat, s: nat) {
    && full <= |codes| && LayersBelow(codes[..full], m, s)
    && (forall c: Column :: ColumnOk(c, m) && 3 <= |c| < s && |c| % 2 == 1 ==> c in codes[..full])
    && (forall a, b :: 0 <= a < b < full ==>
          |codes[a]| < |codes[b]| || (|codes[a]| == |codes[b]| && LexLess(codes[a], codes[b])))
    && (forall i :: full <= i < |codes| ==> |codes[i]| == s)
    && (full < |codes| ==> |codes| - full < Choose(m, s))
  }

  lemma {:induction false} FullLayersLayered(m: nat, s: nat)
    requires s >= 3 && s % 2 == 1
    ensures Layered(FullLayers(m, s), m, |FullLayers(m, s)|, s)
    decreases s
  {
    hide Layered, LayersBelow, LexLess, ColumnOk, Choose, Combos;
    if s < 5 {
      NothingLayered(m, 3);
    } else {
      FullLayersBelow(m, s);
      FullLayersLayered(m, s - 2);
      LayerIs(m, s - 2);
      LayeredStep(FullLayers(m, s - 2), Combos(0, m, s - 2), m, s - 2);
    }
  }

  /** A complete layer. */
  lemma LayerIs(m: nat, s: nat)
    ensures forall i :: 0 <= i < |Combos(0, m, s)| ==> |Combos(0, m, s)[i]| == s
    ensures forall c: Column :: ColumnOk(c, m) && |c| == s ==> c in Combos(0, m, s)
    ensures forall a, b :: 0 <= a < b < |Combos(0, m, s)| ==> LexLess(Combos(0, m, s)[a], Combos(0, m, s)[b])
  {
    hide Combos, LexLess, ColumnOk;
    CombosColumns(m, s);
    forall c: Column | ColumnOk(c, m) && |c| == s
      ensures c in Combos(0, m, s)
    {
      var i := LayerComplete(m, s, c);
    }
    forall a, b | 0 <= a < b < |Combos(0, m, s)|
      ensures LexLess(Combos(0, m, s)[a], Combos(0, m, s)[b])
    {
      CombosInOrder(0, m, s, a, b);
    }
  }

  lemma NothingLayered(m: nat, s: nat)
    requires s == 3
    ensures Layered(FullLayers(m, s), m, |FullLayers(m, s)|, s)
  {
    hide LexLess, ColumnOk, Choose;
  }

  lemma LayeredStep(below: seq<Column>, layer: seq<Column>, m: nat, s: nat)
    requires s >= 3 && s % 2 == 1 && Layered(below, m, |below|, s) && LayersBelow(below + layer, m, s + 2)
    requires forall i :: 0 <= i < |layer| ==> |layer[i]| == s
    requires forall c: Column :: ColumnOk(c, m) && |c| == s ==> c in layer
    requires forall a, b :: 0 <= a < b < |layer| ==> LexLess(layer[a], layer[b])
    ensures Layered(below + layer, m, |below + layer|, s + 2)
  {
    hide LexLess, ColumnOk, Choose;
    var all := below + layer;
    assert all[..|all|] == all && below[..|below|] == below;
    LayersAscend(below, layer, m, s);
    hide LayersBelow;
    forall c: Column | ColumnOk(c, m) && 3 <= |c| < s + 2 && |c| % 2 == 1
      ensures c in all
    {
      assert |c| == s || |c| < s;
    }
  }

  lemma LayersAscend(below: seq<Column>, layer: seq<Column>, m: nat, s: nat)
    requires Layered(below, m, |below|, s)
    requires forall i :: 0 <= i < |layer| ==> |layer[i]| == s
    requires forall a, b :: 0 <= a < b < |layer| ==> LexLess(layer[a], layer[b])
    ensures var all := below + layer;
            forall a, b :: 0 <= a < b < |all| ==>
              |all[a]| < |all[b]| || (|all[a]| == |all[b]| && LexLess(all[a], all[b]))
  {
    hide LexLess, ColumnOk, Choose;
    assert below[..|below|] == below;
    assert forall i :: 0 <= i < |below| ==> |below[i]| < s;
    hide Layered;
  }

  lemma LayerComplete(m: nat, s: nat, c: Column) returns (i: nat)
    requires ColumnOk(c, m) && |c| == s
    ensures i < |Combos(0, m, s)| && Combos(0, m, s)[i] == c
  {
    i := CombosComplete(0, m, s, c);
  }

  lemma WithPart(m: nat, s: nat, subset: seq<Column>)
    requires s >= 3 && s % 2 == 1 && |subset| < Choose(m, s)
    requires forall i :: 0 <= i < |subset| ==> |subset[i]| == s
    ensures Layered(FullLayers(m, s) + subset, m, |FullLayers(m, s)|, s)
  {
    hide LexLess, ColumnOk, Choose, FullLayers;
    FullLayersLayered(m, s);
    var full := FullLayers(m, s);
    assert full[..|full|] == full && (full + subset)[..|full|] == full;
  }

  /** What the generator promises about its matrix for `k` data and `m` parity bits. */
  ghost predicate Generated(k: nat, m: nat, codes: seq<Column>)
    requires m >= 1
  {
    && |codes| == (if k <= Capacity(m) then k else Capacity(m))
    && HsiaoMatrix(|codes|, m, codes)
    && Weight(codes) == MinWeight(k, m, 3)
    && forall e :: 0 <= e < m ==> Fanin(codes, e) <= CeilDiv(MinWeight(k, m, 3), m)
  }

  lemma {:induction false} UniformFanin(f: seq<nat>, c: nat)
    requires forall i :: 0 <= i < |f| ==> f[i] == c
    ensures Sum(f) == |f| * c
  {
    if f != [] {
      UniformFanin(f[1..], c);
      assert |f| * c == c + (|f| - 1) * c;
    }
  }

  lemma FullLayersWeight(m: nat, s: nat)
    requires m >= 1 && s >= 3 && s % 2 == 1
    ensures Weight(FullLayers(m, s)) == m * FullFanin(m, s)
  {
    FullLayersShape(m, s);
    DoubleCounting(FullLayers(m, s), m);
    UniformFanin(Fanins(FullLayers(m, s), m), FullFanin(m, s));
  }

  lemma LayersAreMatrix(cs: seq<Column>, m: nat, s: nat)
    requires LayersBelow(cs, m, s)
    ensures HsiaoMatrix(|cs|, m, cs)
  {
  }

  /** The generator stopped after complete layers only. */
  lemma WholeLayers(k: nat, m: nat, s: nat, required: nat)
    requires m >= 1 && s >= 3 && s % 2 == 1 && s <= m + 2
    requires |FullLayers(m, s)| + required == k
    requires required == 0 || s > m
    requires Accounted(MinWeight(k, m, 3), m, s, required, FullFanin(m, s))
    ensures Generated(k, m, FullLayers(m, s))
  {
    FullLayersShape(m, s);
    FullLayersWeight(m, s);
    LayersAreMatrix(FullLayers(m, s), m, s);
    if required == 0 {
      MinWeightZero(m, s);
    }
    CeilDivShift(m, FullFanin(m, s), 0);
  }

  /** The generator completed the matrix with `subset`, a part of the layer of weight `s`. */
  lemma PartLayer(k: nat, m: nat, s: nat, subset: seq<Column>)
    requires 3 <= s <= m && s % 2 == 1 && |subset| < Choose(m, s)
    requires |FullLayers(m, s)| + |subset| == k
    requires Accounted(MinWeight(k, m, 3), m, s, |subset|, FullFanin(m, s))
    requires Distinct(subset)
    requires forall i :: 0 <= i < |subset| ==> ColumnOk(subset[i], m) && |subset[i]| == s
    requires forall e :: 0 <= e < m ==>
      Fanin(FullLayers(m, s), e) + Fanin(subset, e) <= CeilDiv(MinWeight(k, m, 3), m)
    ensures Generated(k, m, FullLayers(m, s) + subset)
  {
    var full := FullLayers(m, s);
    FullLayersShape(m, s);
    FullLayersWeight(m, s);
    AddLayer(full, subset, m, s);
    LayersAreMatrix(full + subset, m, s + 2);
    WeightAppend(full, subset);
    UniformWeight(subset, s);
    forall e | 0 <= e < m
      ensures Fanin(full + subset, e) <= CeilDiv(MinWeight(k, m, 3), m)
    {
      FaninAppend(full, subset, e);
    }
  }

  lemma NoLayers(k: nat, m: nat)
    requires m >= 1
    ensures FullLayers(m, 3) == []
    ensures Accounted(MinWeight(k, m, 3), m, 3, k, FullFanin(m, 3))
  {
  }

  /** One more complete layer. */
  lemma TakeLayer(total: nat, m: nat, s: nat, required: nat)
    requires 3 <= s <= m && Choose(m, s) <= required && Accounted(total, m, s, required, FullFanin(m, s))
    ensures FullLayers(m, s + 2) == FullLayers(m, s) + Combos(0, m, s)
    ensures Accounted(total, m, s + 2, required - Choose(m, s), FullFanin(m, s + 2))
  {
    LayerTaken(total, m, s, required, FullFanin(m, s));
  }

  /** Does every row stay within the ideal fan-in? */
  method WithinIdeal(fanins: seq<nat>, subsetFanins: seq<nat>, faninIdeal: nat) returns (ideal: bool)
    requires |fanins| == |subsetFanins|
    ensures ideal <==> forall i :: 0 <= i < |fanins| ==> fanins[i] + subsetFanins[i] <= faninIdeal
  {
    ideal := true;
    for i := 0 to |fanins|
      invariant ideal
      invariant forall h :: 0 <= h < i ==> fanins[h] + subsetFanins[h] <= faninIdeal
    {
      if fanins[i] + subsetFanins[i] > faninIdeal {
        ideal := false;
        break;
      }
    }
  }

  /** The random search for the last layer, giving up after `tries` shuffles. */
  method ChooseSubset(codes: seq<Column>, combinations: seq<Column>, required: nat, m: nat,
                      faninIdeal: nat, tries: nat) returns (subset: Option<seq<Column>>)
    requires forall i :: 0 <= i < |codes| ==> ColumnOk(codes[i], m)
    requires forall i :: 0 <= i < |combinations| ==> ColumnOk(combinations[i], m)
    requires Distinct(combinations) && required < |combinations|
    ensures subset.Some? ==> Distinct(subset.value) && |subset.value| == required
    ensures subset.Some? ==> forall i :: 0 <= i < required ==> subset.value[i] in combinations
    ensures subset.Some? ==>
      forall e :: 0 <= e < m ==> Fanin(codes, e) + Fanin(subset.value, e) <= faninIdeal
  {
    var fanins := CalcFanin(m, codes);
    var candidate := combinations;
    for t := 0 to tries
      invariant multiset(candidate) == multiset(combinations)
    {
      candidate := Shuffle(candidate);
      PermutedMembers(candidate, combinations);
      var part := candidate[0..required];
      var subsetFanins := CalcFanin(m, part);
      var ideal := WithinIdeal(fanins, subsetFanins, faninIdeal);
      if ideal {
        forall e | 0 <= e < m
          ensures Fanin(codes, e) + Fanin(part, e) <= faninIdeal
        {
          assert fanins[e] + subsetFanins[e] <= faninIdeal;
        }
        return Some(part);
      }
    }
    return None;
  }

  /** The Hsiao generator. For every sequence of shuffles: if it returns, it returns `k`
      distinct odd columns of weight at least three whose fan-in is ideal, or every such
      column there is when `m` is too small. All columns of weight less than `s` come first, in
      their order, and then some of weight `s`. */
  method HsiaoCode(k: nat, m: nat, tries: nat)
      returns (codes: Option<seq<Column>>, ghost full: nat, ghost s: nat)
    requires k >= 1 && m >= 1
    ensures codes.Some? ==> Generated(k, m, codes.value) && Layered(codes.value, m, full, s)
  {
    hide Combos, Choose, MinWeight, FullLayers, FullFanin, LayerSum, Accounted, CeilDiv, Layered, LayersBelow;
    var required: nat := k;
    var faninIdeal := IdealFanin(k, m);
    var cs := [];
    var step := 3;
    NoLayers(k, m);
    while step < m + 1
      invariant step >= 3 && step % 2 == 1 && step <= m + 2
      invariant cs == FullLayers(m, step)
      invariant required >= 1 && |cs| + required == k
      invariant Accounted(MinWeight(k, m, 3), m, step, required, FullFanin(m, step))
    {
      var candidate := Combos(0, m, step);
      CombosCount(0, m, step);
      CombosDistinct(0, m, step);
      CombosColumns(m, step);
      FullLayersShape(m, step);
      if |candidate| <= required {
        TakeLayer(MinWeight(k, m, 3), m, step, required);
        cs := cs + candidate;
        required := required - |candidate|;
      } else {
        var subset := ChooseSubset(cs, candidate, required, m, faninIdeal, tries);
        if subset.None? {
          return None, 0, 0;
        }
        PartLayer(k, m, step, subset.value);
        WithPart(m, step, subset.value);
        return Some(cs + subset.value), |cs|, step;
      }
      if required == 0 {
        WholeLayers(k, m, step + 2, 0);
        FullLayersLayered(m, step + 2);
        return Some(cs), |cs|, step + 2;
      }
      step := step + 2;
    }
    WholeLayers(k, m, step, required);
    FullLayersLayered(m, step);
    return Some(cs), |cs|, step;
  }
}
