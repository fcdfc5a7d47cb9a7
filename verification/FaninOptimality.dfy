/** Why the ideal fan-in is ideal: no matrix of `k` distinct odd columns does better, and
    the generator's random search always has a permutation that meets it. */
module FaninOptimality {
  import opened Sequences
  import opened Bits
  import opened Secded
  import opened Combinations
  import opened HsiaoGen

  // ----- lower bound -----

  /** The columns of weight exactly `s` (or, with `keep` false, of any other weight). */
  ghost function OfWeight(cs: seq<Column>, s: nat, keep: bool): seq<Column> {
    if cs == [] then []
    else (if (|cs[0]| == s) == keep then [cs[0]] else []) + OfWeight(cs[1..], s, keep)
  }

  lemma {:induction false} OfWeightMembers(cs: seq<Column>, s: nat, keep: bool)
    requires Distinct(cs)
    ensures Distinct(OfWeight(cs, s, keep))
    ensures forall c :: c in OfWeight(cs, s, keep) <==> c in cs && (|c| == s) == keep
  {
    if cs != [] {
      OfWeightMembers(cs[1..], s, keep);
      assert cs[0] !in cs[1..];
      assert forall c :: c in cs <==> c == cs[0] || c in cs[1..];
    }
  }

  lemma {:induction false} OfWeightSplit(cs: seq<Column>, s: nat)
    ensures |cs| == |OfWeight(cs, s, true)| + |OfWeight(cs, s, false)|
    ensures Weight(cs) == Weight(OfWeight(cs, s, true)) + Weight(OfWeight(cs, s, false))
  {
    if cs != [] {
      OfWeightSplit(cs[1..], s);
      var same := |cs[0]| == s;
      assert OfWeight(cs, s, same)[1..] == OfWeight(cs[1..], s, same);
      assert OfWeight(cs, s, !same) == OfWeight(cs[1..], s, !same);
    }
  }

  /** Distinct elements drawn from a list are at most as many as the list. */
  lemma {:induction false} DrawnFrom<T>(a: seq<T>, l: seq<T>)
    requires forall i, j :: 0 <= i < j < |a| ==> a[i] != a[j]
    requires forall i :: 0 <= i < |a| ==> a[i] in l
    ensures |a| <= |l|
  {
    if a != [] {
      var i :| 0 <= i < |l| && l[i] == a[0];
      var l' := l[..i] + l[i + 1..];
      forall h | 1 <= h < |a|
        ensures a[h] in l'
      {
        var j :| 0 <= j < |l| && l[j] == a[h];
        assert j != i;
        assert l'[if j < i then j else j - 1] == a[h];
      }
      DrawnFrom(a[1..], l');
    }
  }

  lemma {:induction false} ColumnLength(c: Column, m: nat)
    requires ColumnOk(c, m)
    ensures |c| <= m
    decreases |c|
  {
    if c != [] {
      var init := c[..|c| - 1];
      assert ColumnOk(init, c[|c| - 1]);
      ColumnLength(init, c[|c| - 1]);
    }
  }

  lemma Distribute(a: nat, b: nat, s: nat)
    ensures (a + b) * s == a * s + b * s
    ensures (a + b) * s <= a * s + b * (s + 2)
  {
    assert b * (s + 2) == b * s + b * 2;
  }

  lemma {:induction false} MinWeightGrows(n: nat, n': nat, m: nat, s: nat)
    requires n <= n' <= LayerSum(m, s)
    ensures MinWeight(n', m, s) >= MinWeight(n, m, s) + (n' - n) * s
    decreases m + 2 - s
  {
    if s <= m {
      var c := Choose(m, s);
      hide Choose;
      if n' < c {
        Distribute(n, n' - n, s);
      } else if n < c {
        MinWeightGrows(0, n' - c, m, s + 2);
        Distribute(c, n' - c, s);
        Distribute(n, n' - n, s);
      } else {
        MinWeightGrows(n - c, n' - c, m, s + 2);
        Distribute(0, n' - n, s);
      }
    }
  }

  /** Odd columns of weight at least `s`. */
  ghost predicate OddFrom(cs: seq<Column>, m: nat, s: nat) {
    forall c :: c in cs ==> ColumnOk(c, m) && |c| >= s && |c| % 2 == 1
  }

  lemma LayerHere(cs: seq<Column>, m: nat, s: nat)
    requires Distinct(cs) && OddFrom(cs, m, s)
    ensures |OfWeight(cs, s, true)| <= Choose(m, s)
    ensures forall i :: 0 <= i < |OfWeight(cs, s, true)| ==> |OfWeight(cs, s, true)[i]| == s
  {
    var here := OfWeight(cs, s, true);
    OfWeightMembers(cs, s, true);
    hide OfWeight, Combos, Choose;
    forall i | 0 <= i < |here|
      ensures here[i] in Combos(0, m, s) && |here[i]| == s
    {
      assert here[i] in here;
      var h := CombosComplete(0, m, s, here[i]);
    }
    DrawnFrom(here, Combos(0, m, s));
    CombosCount(0, m, s);
  }

  lemma LayerAbove(cs: seq<Column>, m: nat, s: nat)
    requires s % 2 == 1 && Distinct(cs) && OddFrom(cs, m, s)
    ensures Distinct(OfWeight(cs, s, false)) && OddFrom(OfWeight(cs, s, false), m, s + 2)
  {
    OfWeightMembers(cs, s, false);
    hide OfWeight;
    forall c | c in OfWeight(cs, s, false)
      ensures ColumnOk(c, m) && |c| >= s + 2 && |c| % 2 == 1
    {
      assert c in cs;
    }
  }

  /** Replacing missing columns of weight `s` by heavier ones does not get lighter. */
  lemma LighterFirst(here: nat, above: nat, m: nat, s: nat)
    requires s <= m && here <= Choose(m, s) && above <= LayerSum(m, s + 2)
    ensures here * s + MinWeight(above, m, s + 2) >= MinWeight(here + above, m, s)
  {
    var c := Choose(m, s);
    hide Choose;
    if here + above < c {
      MinWeightGrows(0, above, m, s + 2);
      Distribute(here, above, s);
    } else {
      MinWeightGrows(here + above - c, above, m, s + 2);
      Distribute(here, c - here, s);
    }
  }

  /** Distinct odd columns of weight at least `s` weigh at least as much as the lightest ones. */
  lemma {:induction false} LightestColumns(cs: seq<Column>, m: nat, s: nat)
    requires s % 2 == 1 && Distinct(cs) && OddFrom(cs, m, s)
    ensures |cs| <= LayerSum(m, s)
    ensures Weight(cs) >= MinWeight(|cs|, m, s)
    decreases m + 2 - s
  {
    if s > m {
      if cs != [] {
        assert cs[0] in cs;
        ColumnLength(cs[0], m);
      }
    } else {
      var here, above := OfWeight(cs, s, true), OfWeight(cs, s, false);
      hide OfWeight, Weight, MinWeight, Choose;
      OfWeightSplit(cs, s);
      LayerHere(cs, m, s);
      LayerAbove(cs, m, s);
      LightestColumns(above, m, s + 2);
      UniformWeight(here, s);
      LighterFirst(|here|, |above|, m, s);
    }
  }

  /** Some row reaches the average, rounded up. */
  lemma Pigeonhole(cs: seq<Column>, m: nat, w: nat) returns (e: nat)
    requires m >= 1 && Weight(cs) >= w
    requires forall i :: 0 <= i < |cs| ==> ColumnOk(cs[i], m)
    ensures e < m && Fanin(cs, e) >= CeilDiv(w, m)
  {
    if forall x :: 0 <= x < m ==> Fanin(cs, x) < CeilDiv(w, m) {
      var bound := CeilDiv(w, m) - 1;
      assert Fanin(cs, 0) < CeilDiv(w, m);
      DoubleCounting(cs, m);
      SumBound(Fanins(cs, m), bound);
      CeilDivLeast(w, m, bound);
      assert false;
    }
    e :| 0 <= e < m && Fanin(cs, e) >= CeilDiv(w, m);
  }

  /** No Hsiao matrix whatever has a smaller maximal fan-in than the ideal one. */
  lemma IdealIsLowerBound(k: nat, m: nat, codes: seq<Column>) returns (e: nat)
    requires m >= 1 && HsiaoMatrix(k, m, codes)
    ensures k <= Capacity(m)
    ensures e < m && Fanin(codes, e) >= CeilDiv(MinWeight(k, m, 3), m)
  {
    LightestColumns(codes, m, 3);
    e := Pigeonhole(codes, m, MinWeight(k, m, 3));
  }

  /** A generated matrix attains the bound: its busiest row has fan-in exactly
      `ceil(MinWeight / m)`, and every other Hsiao matrix has a row at least as busy. */
  lemma GeneratedIsOptimal(k: nat, m: nat, codes: seq<Column>, other: seq<Column>)
    requires m >= 1 && Generated(k, m, codes) && HsiaoMatrix(k, m, other)
    ensures HsiaoMatrix(k, m, codes)
    ensures exists e :: 0 <= e < m && Fanin(codes, e) == CeilDiv(MinWeight(k, m, 3), m)
    ensures exists e :: 0 <= e < m && forall x :: 0 <= x < m ==> Fanin(codes, x) <= Fanin(other, e)
  {
    var e := IdealIsLowerBound(k, m, other);
    var f := IdealIsLowerBound(k, m, codes);
    assert Fanin(codes, f) == CeilDiv(MinWeight(k, m, 3), m);
    assert forall x :: 0 <= x < m ==> Fanin(codes, x) <= Fanin(other, e);
  }

  // ----- a balanced choice always exists -----

  /** Distinct columns of weight `s`. */
  ghost predicate Family(f: seq<Column>, m: nat, s: nat) {
    Distinct(f) && forall i :: 0 <= i < |f| ==> ColumnOk(f[i], m) && |f[i]| == s
  }

  /** `c` with row `x` exchanged for row `y`. */
  ghost function Exchange(c: Column, m: nat, x: nat, y: nat): Column
    requires x < m && y < m
  {
    OnePositions(ToNat(ColumnBits(c, m)[x := false][y := true]), 0, m)
  }

  lemma ExchangeMembers(c: Column, m: nat, x: nat, y: nat)
    requires x < m && y < m && x != y && ColumnOk(c, m)
    ensures ColumnOk(Exchange(c, m, x, y), m)
    ensures forall p :: p in Exchange(c, m, x, y) <==> p == y || (p in c && p != x)
  {
    var w := ColumnBits(c, m)[x := false][y := true];
    var d := Exchange(c, m, x, y);
    OnePositionsMembers(ToNat(w), 0, m);
    forall p
      ensures p in d <==> p == y || (p in c && p != x)
    {
      if p >= 0 {
        BitAtToNat(w, p);
      }
    }
    forall a | 0 <= a < |d|
      ensures d[a] < m
    {
      assert d[a] in d;
    }
  }

  lemma ExchangeWeight(c: Column, m: nat, x: nat, y: nat)
    requires x < m && y < m && ColumnOk(c, m) && x in c && y !in c
    ensures |Exchange(c, m, x, y)| == |c|
  {
    var d := Exchange(c, m, x, y);
    ExchangeMembers(c, m, x, y);
    SumOfColumn(c, m);
    SumOfColumn(d, m);
    var u, v := seq(m, e => B2N(e in c)), seq(m, e => B2N(e in d));
    SumUpdate(u, x, 0);
    SumUpdate(u[x := 0], y, 1);
    assert v == u[x := 0][y := 1];
  }

  lemma ExchangeInjective(a: Column, b: Column, m: nat, x: nat, y: nat)
    requires x < m && y < m && ColumnOk(a, m) && ColumnOk(b, m)
    requires x in a && y !in a && x in b && y !in b
    requires Exchange(a, m, x, y) == Exchange(b, m, x, y)
    ensures a == b
  {
    ExchangeMembers(a, m, x, y);
    ExchangeMembers(b, m, x, y);
    forall p
      ensures p in a <==> p in b
    {
      assert p in Exchange(a, m, x, y) <==> p == y || (p in a && p != x);
      assert p in Exchange(b, m, x, y) <==> p == y || (p in b && p != x);
    }
    SameElements(a, b);
  }

  /** The columns that contain `x` but not `y`. */
  ghost function Only(f: seq<Column>, x: nat, y: nat): seq<Column> {
    if f == [] then [] else (if x in f[0] && y !in f[0] then [f[0]] else []) + Only(f[1..], x, y)
  }

  lemma {:induction false} OnlyMembers(f: seq<Column>, x: nat, y: nat)
    requires Distinct(f)
    ensures Distinct(Only(f, x, y))
    ensures forall c :: c in Only(f, x, y) <==> c in f && x in c && y !in c
  {
    if f != [] {
      OnlyMembers(f[1..], x, y);
      assert f[0] !in f[1..];
      assert forall c :: c in f <==> c == f[0] || c in f[1..];
    }
  }

  lemma {:induction false} OnlyCount(f: seq<Column>, x: nat, y: nat)
    ensures |Only(f, x, y)| + Fanin(f, y) == |Only(f, y, x)| + Fanin(f, x)
  {
    if f != [] {
      OnlyCount(f[1..], x, y);
    }
  }

  /** When row `x` is busier than row `y`, some column can give up `x` for `y`. */
  lemma FreeExchange(f: seq<Column>, m: nat, s: nat, x: nat, y: nat) returns (i: nat)
    requires Family(f, m, s) && x < m && y < m && Fanin(f, x) > Fanin(f, y)
    ensures i < |f| && x in f[i] && y !in f[i] && Exchange(f[i], m, x, y) !in f
  {
    var a, b := Only(f, x, y), Only(f, y, x);
    OnlyMembers(f, x, y);
    OnlyMembers(f, y, x);
    OnlyCount(f, x, y);
    hide Only, Exchange, Fanin;
    assert x != y;
    forall h | 0 <= h < |a|
      ensures ColumnOk(a[h], m) && x in a[h] && y !in a[h] && a[h] in f
    {
      assert a[h] in a;
    }
    var moved := seq(|a|, h requires 0 <= h < |a| => Exchange(a[h], m, x, y));
    forall g, h | 0 <= g < h < |moved|
      ensures moved[g] != moved[h]
    {
      if moved[g] == moved[h] {
        ExchangeInjective(a[g], a[h], m, x, y);
      }
    }
    if forall h :: 0 <= h < |moved| ==> moved[h] in b {
      DrawnFrom(moved, b);
      assert false;
    }
    var h :| 0 <= h < |moved| && moved[h] !in b;
    ExchangeMembers(a[h], m, x, y);
    i :| 0 <= i < |f| && f[i] == a[h];
  }

  lemma FaninReplace(f: seq<Column>, i: nat, c: Column, e: nat)
    requires i < |f|
    ensures Fanin(f[i := c], e) + B2N(e in f[i]) == Fanin(f, e) + B2N(e in c)
  {
    var pre, post := f[..i], f[i + 1..];
    assert f == pre + ([f[i]] + post);
    assert f[i := c] == pre + ([c] + post);
    FaninAppend(pre, [f[i]] + post, e);
    FaninAppend(pre, [c] + post, e);
    assert ([f[i]] + post)[1..] == post && ([c] + post)[1..] == post;
  }

  /** Sum of the squared fan-ins: the imbalance that exchanges reduce. */
  ghost function Squares(f: seq<Column>, m: nat): seq<nat> {
    seq(m, e requires 0 <= e => Fanin(f, e) * Fanin(f, e))
  }

  lemma SquaresDrop(dx: nat, dy: nat)
    requires dx >= dy + 2
    ensures (dx - 1) * (dx - 1) + (dy + 1) * (dy + 1) < dx * dx + dy * dy
  {
    assert (dx - 1) * (dx - 1) == dx * dx - 2 * dx + 1;
    assert (dy + 1) * (dy + 1) == dy * dy + 2 * dy + 1;
  }

  lemma ExchangeStep(f: seq<Column>, m: nat, s: nat, x: nat, y: nat) returns (g: seq<Column>)
    requires Family(f, m, s) && x < m && y < m && Fanin(f, x) >= Fanin(f, y) + 2
    ensures Family(g, m, s) && |g| == |f|
    ensures Sum(Squares(g, m)) < Sum(Squares(f, m))
  {
    var i := FreeExchange(f, m, s, x, y);
    var c := Exchange(f[i], m, x, y);
    ExchangeMembers(f[i], m, x, y);
    ExchangeWeight(f[i], m, x, y);
    hide Exchange;
    g := f[i := c];
    forall e | 0 <= e < m
      ensures Fanin(g, e) == if e == x then Fanin(f, e) - 1 else if e == y then Fanin(f, e) + 1 else Fanin(f, e)
    {
      FaninReplace(f, i, c, e);
    }
    hide Fanin;
    var dx, dy := Fanin(f, x), Fanin(f, y);
    var q := Squares(f, m);
    SumUpdate(q, x, (dx - 1) * (dx - 1));
    var q' := q[x := (dx - 1) * (dx - 1)];
    SumUpdate(q', y, (dy + 1) * (dy + 1));
    assert Squares(g, m) == q'[y := (dy + 1) * (dy + 1)];
    SquaresDrop(dx, dy);
  }

  /** Any family can be rebalanced until no two rows differ by more than one. */
  lemma {:induction false} Balance(f: seq<Column>, m: nat, s: nat) returns (g: seq<Column>)
    requires Family(f, m, s)
    ensures Family(g, m, s) && |g| == |f|
    ensures forall x, y :: 0 <= x < m && 0 <= y < m ==> Fanin(g, x) <= Fanin(g, y) + 1
    decreases Sum(Squares(f, m))
  {
    if x, y :| 0 <= x < m && 0 <= y < m && Fanin(f, x) >= Fanin(f, y) + 2 {
      var h := ExchangeStep(f, m, s, x, y);
      g := Balance(h, m, s);
    } else {
      g := f;
    }
  }

  /** In a balanced family no row exceeds the average, rounded up. */
  lemma BalancedBound(g: seq<Column>, m: nat, s: nat, x: nat)
    requires Family(g, m, s) && x < m
    requires forall x, y :: 0 <= x < m && 0 <= y < m ==> Fanin(g, x) <= Fanin(g, y) + 1
    ensures Fanin(g, x) <= CeilDiv(|g| * s, m)
  {
    var avg := CeilDiv(|g| * s, m);
    if Fanin(g, x) > avg {
      DoubleCounting(g, m);
      UniformWeight(g, s);
      CeilDivLeast(|g| * s, m, avg);
      var low := Fanins(g, m)[x := avg];
      SumUpdate(Fanins(g, m), x, avg);
      forall e | 0 <= e < m
        ensures low[e] >= avg
      {
        assert Fanin(g, x) <= Fanin(g, e) + 1;
      }
      SumAtLeast(low, avg);
    }
  }

  lemma {:induction false} SumAtLeast(a: seq<nat>, bound: nat)
    requires forall i :: 0 <= i < |a| ==> a[i] >= bound
    ensures Sum(a) >= |a| * bound
  {
    if a != [] {
      SumAtLeast(a[1..], bound);
      assert |a| * bound == bound + (|a| - 1) * bound;
    }
  }

  /** The columns of `l` that are not in `f`. */
  ghost function Without(l: seq<Column>, f: seq<Column>): seq<Column> {
    if l == [] then [] else (if l[0] in f then [] else [l[0]]) + Without(l[1..], f)
  }

  lemma {:induction false} WithoutMembers(l: seq<Column>, f: seq<Column>)
    requires Distinct(l)
    ensures Distinct(Without(l, f))
    ensures forall c :: c in Without(l, f) <==> c in l && c !in f
  {
    if l != [] {
      WithoutMembers(l[1..], f);
      assert l[0] !in l[1..];
      assert forall c :: c in l <==> c == l[0] || c in l[1..];
    }
  }

  /** A list can be permuted to start with any of its distinct members. */
  lemma Fronted(l: seq<Column>, f: seq<Column>) returns (r: seq<Column>)
    requires Distinct(l) && Distinct(f) && forall i :: 0 <= i < |f| ==> f[i] in l
    ensures multiset(r) == multiset(l) && |f| <= |r| && r[..|f|] == f
  {
    var rest := Without(l, f);
    WithoutMembers(l, f);
    r := f + rest;
    assert forall i :: 0 <= i < |rest| ==> rest[i] in rest;
    assert Distinct(r);
    DistinctCounts(r);
    DistinctCounts(l);
    forall c
      ensures multiset(r)[c] == multiset(l)[c]
    {
      assert c in r <==> c in f || c in rest;
      assert c in r <==> c in multiset(r);
      assert c in l <==> c in multiset(l);
    }
  }

  lemma FirstOfLayer(m: nat, s: nat, n: nat)
    requires n <= Choose(m, s)
    ensures n <= |Combos(0, m, s)| && Family(Combos(0, m, s)[..n], m, s)
  {
    CombosCount(0, m, s);
    CombosColumns(m, s);
    CombosDistinct(0, m, s);
  }

  /** The random retry is never hopeless: whenever the generator reaches a layer it only
      needs part of, some permutation of that layer passes the fan-in check. */
  lemma RetryCanSucceed(k: nat, m: nat, s: nat, required: nat) returns (r: seq<Column>)
    requires 3 <= s <= m && s % 2 == 1 && required < Choose(m, s)
    requires Accounted(MinWeight(k, m, 3), m, s, required, FullFanin(m, s))
    ensures multiset(r) == multiset(Combos(0, m, s)) && required <= |r|
    ensures forall e :: 0 <= e < m ==>
      Fanin(FullLayers(m, s), e) + Fanin(r[..required], e) <= CeilDiv(MinWeight(k, m, 3), m)
  {
    FirstOfLayer(m, s, required);
    CombosDistinct(0, m, s);
    hide Combos, Choose;
    var g := Balance(Combos(0, m, s)[..required], m, s);
    forall i | 0 <= i < |g|
      ensures g[i] in Combos(0, m, s)
    {
      var h := CombosComplete(0, m, s, g[i]);
    }
    r := Fronted(Combos(0, m, s), g);
    LastLayer(MinWeight(k, m, 3), m, s, required, FullFanin(m, s));
    forall e | 0 <= e < m
      ensures Fanin(FullLayers(m, s), e) + Fanin(r[..required], e) <= CeilDiv(MinWeight(k, m, 3), m)
    {
      FullLayersFanin(m, s, e);
      BalancedBound(g, m, s, e);
    }
  }
}
