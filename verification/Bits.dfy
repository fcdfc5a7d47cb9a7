/** Bits of natural numbers (Python integers used as bit masks) and bit vectors
    (SystemVerilog `logic` vectors, index 0 is the least significant bit). */
module Bits {

  type Word = seq<bool>

  function Pow2(n: nat): (p: nat)
    ensures p > 0
  {
    if n == 0 then 1 else 2 * Pow2(n - 1)
  }

  lemma {:induction false} Pow2Above(n: nat)
    ensures n < Pow2(n)
  {
    if n > 0 {
      Pow2Above(n - 1);
    }
  }

  lemma {:induction false} Pow2Monotone(a: nat, b: nat)
    ensures a < b <==> Pow2(a) < Pow2(b)
    decreases a
  {
    if a == 0 {
      if b > 0 {
        assert Pow2(b) == 2 * Pow2(b - 1);
      }
    } else if b > 0 {
      Pow2Monotone(a - 1, b - 1);
    }
  }

  function BitAt(v: nat, i: nat): bool {
    if i == 0 then v % 2 == 1 else BitAt(v / 2, i - 1)
  }

  function B2N(b: bool): nat {
    if b then 1 else 0
  }

  /** The number whose binary digits are `w`. */
  function ToNat(w: Word): nat {
    if w == [] then 0 else B2N(w[0]) + 2 * ToNat(w[1..])
  }

  /** The low `n` bits of `v`. */
  function FromNat(v: nat, n: nat): (w: Word)
    ensures |w| == n
  {
    seq(n, i requires 0 <= i => BitAt(v, i))
  }

  function Zeros(n: nat): (w: Word)
    ensures |w| == n
  {
    seq(n, i => false)
  }

  /** The vector of length `n` whose only one is at `p`. */
  function Unit(n: nat, p: nat): (w: Word)
    ensures |w| == n
  {
    seq(n, i => i == p)
  }

  function XorWord(a: Word, b: Word): (w: Word)
    requires |a| == |b|
    ensures |w| == |a|
  {
    seq(|a|, i requires 0 <= i < |a| => a[i] != b[i])
  }

  /** `w & mask`, the mask being a number. */
  function AndMask(w: Word, mask: nat): (r: Word)
    ensures |r| == |w|
  {
    seq(|w|, i requires 0 <= i < |w| => w[i] && BitAt(mask, i))
  }

  /** `w ^ mask`, the mask being a number. */
  function XorMask(w: Word, mask: nat): (r: Word)
    ensures |r| == |w|
  {
    seq(|w|, i requires 0 <= i < |w| => w[i] != BitAt(mask, i))
  }

  /** Reduction XOR, `^w`. */
  function XorAll(w: Word): bool {
    if w == [] then false else w[0] != XorAll(w[1..])
  }

  /** Reduction OR, `|w`. */
  predicate AnyBit(w: Word) {
    exists i :: 0 <= i < |w| && w[i]
  }

  /** `$countones(w)`. */
  function CountOnes(w: Word): nat {
    if w == [] then 0 else B2N(w[0]) + CountOnes(w[1..])
  }

  lemma {:induction false} BitAtZero(i: nat)
    ensures !BitAt(0, i)
  {
    if i > 0 {
      BitAtZero(i - 1);
    }
  }

  lemma {:induction false} BitAtToNat(w: Word, i: nat)
    ensures BitAt(ToNat(w), i) == (i < |w| && w[i])
  {
    if w == [] {
      BitAtZero(i);
    } else {
      assert ToNat(w) / 2 == ToNat(w[1..]);
      if i > 0 {
        BitAtToNat(w[1..], i - 1);
      }
    }
  }

  /** A number is determined by its binary digits. */
  lemma {:induction false} BitsDetermine(a: nat, b: nat)
    requires forall i: nat :: BitAt(a, i) == BitAt(b, i)
    ensures a == b
    decreases a + b
  {
    assert BitAt(a, 0) == BitAt(b, 0);
    assert a % 2 == b % 2;
    if a + b > 0 {
      forall i: nat
        ensures BitAt(a / 2, i) == BitAt(b / 2, i)
      {
        assert BitAt(a, i + 1) == BitAt(b, i + 1);
      }
      BitsDetermine(a / 2, b / 2);
    }
  }

  lemma ToNatInjective(v: Word, w: Word)
    requires |v| == |w| && ToNat(v) == ToNat(w)
    ensures v == w
  {
    forall i | 0 <= i < |v|
      ensures v[i] == w[i]
    {
      BitAtToNat(v, i);
      BitAtToNat(w, i);
    }
  }

  lemma {:induction false} ToNatBound(w: Word)
    ensures ToNat(w) < Pow2(|w|)
  {
    if w != [] {
      ToNatBound(w[1..]);
    }
  }

  lemma FromNatToNat(w: Word)
    ensures FromNat(ToNat(w), |w|) == w
  {
    forall i | 0 <= i < |w|
      ensures FromNat(ToNat(w), |w|)[i] == w[i]
    {
      BitAtToNat(w, i);
    }
  }

  /** Adding `2^i` to a number whose bit `i` is clear only sets that bit. */
  lemma {:induction false} AddPow2(v: nat, i: nat, j: nat)
    requires !BitAt(v, i)
    ensures BitAt(v + Pow2(i), j) == (BitAt(v, j) || j == i)
  {
    if i == 0 {
      assert (v + 1) / 2 == v / 2;
    } else {
      assert (v + Pow2(i)) / 2 == v / 2 + Pow2(i - 1);
      assert (v + Pow2(i)) % 2 == v % 2;
      if j > 0 {
        AddPow2(v / 2, i - 1, j - 1);
      }
    }
  }

  lemma {:induction false} BitAtBound(v: nat, n: nat, i: nat)
    requires v < Pow2(n) && n <= i
    ensures !BitAt(v, i)
  {
    if n == 0 {
      BitAtZero(i);
    } else {
      BitAtBound(v / 2, n - 1, i - 1);
    }
  }

  lemma {:induction false} ShiftBits(v: nat, k: nat, i: nat)
    ensures BitAt(v * Pow2(k), i) == (i >= k && BitAt(v, i - k))
  {
    if k > 0 {
      assert v * Pow2(k) == 2 * (v * Pow2(k - 1));
      if i > 0 {
        ShiftBits(v, k - 1, i - 1);
      }
    }
  }

  // ----- reduction XOR -----

  lemma {:induction false} XorAllLinear(a: Word, b: Word)
    requires |a| == |b|
    ensures XorAll(XorWord(a, b)) == (XorAll(a) != XorAll(b))
  {
    if a != [] {
      assert XorWord(a, b)[1..] == XorWord(a[1..], b[1..]);
      XorAllLinear(a[1..], b[1..]);
    }
  }

  lemma {:induction false} XorAllZeros(w: Word)
    requires forall i :: 0 <= i < |w| ==> !w[i]
    ensures !XorAll(w)
  {
    if w != [] {
      XorAllZeros(w[1..]);
    }
  }

  lemma {:induction false} XorAllAppend(a: Word, b: Word)
    ensures XorAll(a + b) == (XorAll(a) != XorAll(b))
  {
    if a == [] {
      assert a + b == b;
    } else {
      assert (a + b)[1..] == a[1..] + b;
      XorAllAppend(a[1..], b);
    }
  }

  /** Flipping one bit flips the parity. */
  lemma XorAllFlip(w: Word, p: nat)
    requires p < |w|
    ensures XorAll(w[p := !w[p]]) == !XorAll(w)
  {
    assert w == w[..p] + ([w[p]] + w[p + 1..]);
    assert w[p := !w[p]] == w[..p] + ([!w[p]] + w[p + 1..]);
    XorAllAppend(w[..p], [w[p]] + w[p + 1..]);
    XorAllAppend(w[..p], [!w[p]] + w[p + 1..]);
  }

  lemma XorAllUnit(n: nat, p: nat)
    requires p < n
    ensures XorAll(Unit(n, p))
  {
    XorAllZeros(Zeros(n));
    XorAllFlip(Zeros(n), p);
    assert Unit(n, p) == Zeros(n)[p := true];
  }

  lemma {:induction false} XorAllIsParityOfCount(w: Word)
    ensures XorAll(w) == (CountOnes(w) % 2 == 1)
  {
    if w != [] {
      XorAllIsParityOfCount(w[1..]);
    }
  }

  // ----- error patterns of weight 0, 1 and 2 -----

  lemma {:induction false} NoOnes(e: Word)
    requires CountOnes(e) == 0
    ensures e == Zeros(|e|)
  {
    if e != [] {
      NoOnes(e[1..]);
      assert e == [e[0]] + e[1..];
    }
  }

  lemma {:induction false} OneOne(e: Word) returns (p: nat)
    requires CountOnes(e) == 1
    ensures p < |e| && e == Unit(|e|, p)
  {
    if e[0] {
      NoOnes(e[1..]);
      p := 0;
      assert forall i :: 1 <= i < |e| ==> e[i] == e[1..][i - 1];
    } else {
      var q := OneOne(e[1..]);
      p := q + 1;
      assert forall i :: 1 <= i < |e| ==> e[i] == e[1..][i - 1];
    }
  }

  lemma {:induction false} TwoOnes(e: Word) returns (p: nat, q: nat)
    requires CountOnes(e) == 2
    ensures p < q < |e| && e == XorWord(Unit(|e|, p), Unit(|e|, q))
  {
    if e[0] {
      var r := OneOne(e[1..]);
      p, q := 0, r + 1;
    } else {
      var r, s := TwoOnes(e[1..]);
      p, q := r + 1, s + 1;
    }
    assert forall i :: 1 <= i < |e| ==> e[i] == e[1..][i - 1];
  }

  // ----- bitwise operators on numbers -----

  /** `a & b`. */
  function BitAnd(a: nat, b: nat): nat {
    if a == 0 || b == 0 then 0 else (a % 2) * (b % 2) + 2 * BitAnd(a / 2, b / 2)
  }

  /** `a | b`. */
  function BitOr(a: nat, b: nat): nat
    decreases a + b
  {
    if a == 0 then b
    else if b == 0 then a
    else (if a % 2 == 1 || b % 2 == 1 then 1 else 0) + 2 * BitOr(a / 2, b / 2)
  }

  lemma {:induction false} BitAndBit(a: nat, b: nat, i: nat)
    ensures BitAt(BitAnd(a, b), i) == (BitAt(a, i) && BitAt(b, i))
  {
    if a == 0 || b == 0 {
      BitAtZero(i);
    } else {
      assert BitAnd(a, b) / 2 == BitAnd(a / 2, b / 2);
      if i > 0 {
        BitAndBit(a / 2, b / 2, i - 1);
      }
    }
  }

  lemma {:induction false} BitOrBit(a: nat, b: nat, i: nat)
    ensures BitAt(BitOr(a, b), i) == (BitAt(a, i) || BitAt(b, i))
    decreases a + b
  {
    if a == 0 || b == 0 {
      BitAtZero(i);
    } else {
      assert BitOr(a, b) / 2 == BitOr(a / 2, b / 2);
      if i > 0 {
        BitOrBit(a / 2, b / 2, i - 1);
      }
    }
  }

  /** Or-ing a bit above all set bits is adding it. */
  lemma OrIsAdd(v: nat, n: nat, b: bool)
    requires v < Pow2(n)
    ensures BitOr(v, B2N(b) * Pow2(n)) == v + B2N(b) * Pow2(n)
  {
    var w := B2N(b) * Pow2(n);
    forall i: nat
      ensures BitAt(BitOr(v, w), i) == BitAt(v + w, i)
    {
      BitOrBit(v, w, i);
      BitAtBound(v, n, n);
      AddPow2(v, n, i);
      BitAtZero(i);
      BitAtZero(n);
      AddPow2(0, n, i);
    }
    BitsDetermine(BitOr(v, w), v + w);
  }
}
