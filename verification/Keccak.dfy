/** The round constants of Keccak: an 8-bit LFSR, and constants picked from its output. */
module Keccak {
  import opened Sequences
  import opened Bits

  // Register 10000000, and the positions 0, 4, 5 and 6 that are flipped.
  const FIRST: Word := [true, false, false, false, false, false, false, false]
  const FLIPS: Word := [true, false, false, false, true, true, true, false]

  // ----- the algorithm of section 3.2.5 of FIPS 202 -----

  /** One step on the register: prefix a zero, add the last bit to bits 0, 4, 5 and 6, truncate. */
  function FipsStep(r: Word): (r': Word)
    requires |r| == 8
    ensures |r'| == 8
  {
    var r1 := [false] + r;
    var r2 := r1[0 := r1[0] != r1[8]];
    var r3 := r2[4 := r2[4] != r2[8]];
    var r4 := r3[5 := r3[5] != r3[8]];
    var r5 := r4[6 := r4[6] != r4[8]];
    r5[..8]
  }

  /** The register after `t` steps. */
  function Register(t: nat): (r: Word)
    ensures |r| == 8
  {
    if t == 0 then FIRST else FipsStep(Register(t - 1))
  }

  /** `rc(t)` of the standard, which reduces `t` modulo 255. */
  function Rc(t: nat): bool {
    if t % 255 == 0 then true else Register(t % 255)[0]
  }

  // ----- the period of the register -----

  /** The register as a byte, bit 0 in front. */
  function Pack(r: Word): bv8
    requires |r| == 8
  {
    (if r[0] then 0x80 else 0) | (if r[1] then 0x40 else 0) | (if r[2] then 0x20 else 0) | (if r[3] then 0x10 else 0) |
    (if r[4] then 0x08 else 0) | (if r[5] then 0x04 else 0) | (if r[6] then 0x02 else 0) | (if r[7] then 0x01 else 0)
  }

  /** One step on the byte. */
  function Shift(v: bv8): bv8 {
    (v >> 1) ^ (if v & 1 == 1 then 0x8E else 0)
  }

  function Shifts(n: nat, v: bv8): bv8 {
    if n == 0 then v else Shift(Shifts(n - 1, v))
  }

  lemma PackStep(r: Word)
    requires |r| == 8
    ensures Pack(FipsStep(r)) == Shift(Pack(r))
  {
  }

  lemma PackInjective(r: Word, s: Word)
    requires |r| == |s| == 8 && Pack(r) == Pack(s)
    ensures r == s
  {
  }

  lemma {:induction false} PackRegister(t: nat)
    ensures Pack(Register(t)) == Shifts(t, 0x80)
  {
    if t == 0 {
      assert Pack(FIRST) == 0x80;
    } else {
      hide Pack, Shift, FipsStep;
      PackRegister(t - 1);
      PackStep(Register(t - 1));
    }
  }

  /** The register is not the first one again before `n` steps. */
  ghost predicate NotBefore(n: nat) {
    forall m :: 0 < m < n ==> Shifts(m, 0x80) != 0x80
  }

  function Five(v: bv8): bv8 {
    Shift(Shift(Shift(Shift(Shift(v)))))
  }

  /** None of `v` and the next four registers is the first one. */
  predicate Away(v: bv8) {
    && v != 0x80 && Shift(v) != 0x80 && Shift(Shift(v)) != 0x80
    && Shift(Shift(Shift(v))) != 0x80 && Shift(Shift(Shift(Shift(v)))) != 0x80
  }

  lemma Walk(n: nat, v: bv8)
    requires n > 0 && NotBefore(n) && Shifts(n, 0x80) == v && Away(v)
    ensures NotBefore(n + 5) && Shifts(n + 5, 0x80) == Five(v)
  {
    hide Shift;
    assert Shifts(n + 1, 0x80) == Shift(v);
    assert Shifts(n + 2, 0x80) == Shift(Shift(v));
    assert Shifts(n + 3, 0x80) == Shift(Shift(Shift(v)));
    assert Shifts(n + 4, 0x80) == Shift(Shift(Shift(Shift(v))));
  }

  lemma WalkStart()
    ensures NotBefore(5) && Shifts(5, 0x80) == 0x04
  {
    assert Shifts(0, 0x80) == 0x80;
    assert Shifts(1, 0x80) == 0x40;
    assert Shifts(2, 0x80) == 0x20;
    assert Shifts(3, 0x80) == 0x10;
    assert Shifts(4, 0x80) == 0x08;
  }

  lemma Walk55()
    ensures NotBefore(55) && Shifts(55, 0x80) == 0xA6
  {
    hide NotBefore, Shifts;
    WalkStart();
    Walk(5, 0x04);
    Walk(10, 0xAD);
    Walk(15, 0x83);
    Walk(20, 0xB0);
    Walk(25, 0x8B);
    Walk(30, 0xF7);
    Walk(35, 0x90);
    Walk(40, 0x8A);
    Walk(45, 0x9B);
    Walk(50, 0x79);
  }

  lemma Walk105()
    ensures NotBefore(105) && Shifts(105, 0x80) == 0xD5
  {
    hide NotBefore, Shifts;
    Walk55();
    Walk(55, 0xA6);
    Walk(60, 0x70);
    Walk(65, 0x8D);
    Walk(70, 0x82);
    Walk(75, 0xDC);
    Walk(80, 0x62);
    Walk(85, 0xDB);
    Walk(90, 0x7B);
    Walk(95, 0x7E);
    Walk(100, 0xBF);
  }

  lemma Walk155()
    ensures NotBefore(155) && Shifts(155, 0x80) == 0x68
  {
    hide NotBefore, Shifts;
    Walk105();
    Walk(105, 0xD5);
    Walk(110, 0x49);
    Walk(115, 0x29);
    Walk(120, 0x2A);
    Walk(125, 0x9E);
    Walk(130, 0xB8);
    Walk(135, 0xCC);
    Walk(140, 0xEC);
    Walk(145, 0xED);
    Walk(150, 0x81);
  }

  lemma Walk205()
    ensures NotBefore(205) && Shifts(205, 0x80) == 0xBA
  {
    hide NotBefore, Shifts;
    Walk155();
    Walk(155, 0x68);
    Walk(160, 0x44);
    Walk(165, 0xAF);
    Walk(170, 0x5B);
    Walk(175, 0x7F);
    Walk(180, 0xD3);
    Walk(185, 0x3C);
    Walk(190, 0x65);
    Walk(195, 0xC2);
    Walk(200, 0xDE);
  }

  lemma Walk255()
    ensures NotBefore(255) && Shifts(255, 0x80) == 0x80
  {
    hide NotBefore, Shifts;
    Walk205();
    Walk(205, 0xBA);
    Walk(210, 0x14);
    Walk(215, 0x23);
    Walk(220, 0xB5);
    Walk(225, 0x4A);
    Walk(230, 0x9D);
    Walk(235, 0x0C);
    Walk(240, 0xEA);
    Walk(245, 0x98);
    Walk(250, 0xCD);
  }

  /** 255 is the period of the register ... */
  lemma {:induction false} Period(t: nat)
    ensures Register(t + 255) == Register(t)
  {
    if t == 0 {
      Walk255();
      PackRegister(255);
      PackRegister(0);
      PackInjective(Register(255), Register(0));
    } else {
      Period(t - 1);
    }
  }

  /** ... and no smaller number is. */
  lemma LeastPeriod(n: nat)
    requires 0 < n < 255
    ensures Register(n) != FIRST
  {
    Walk255();
    PackRegister(n);
    assert Pack(FIRST) == 0x80;
  }

  lemma {:induction false} RegisterMod(t: nat)
    ensures Register(t % 255) == Register(t)
  {
    if t >= 255 {
      RegisterMod(t - 255);
      Period(t - 255);
      assert (t - 255) % 255 == t % 255;
    }
  }

  /** The reduction of `t` in the standard changes nothing. */
  lemma RcIsUnreduced(t: nat)
    ensures Rc(t) == Register(t)[0]
  {
    RegisterMod(t);
  }

  // ----- the program -----

  lemma StepIsFips(r: Word)
    requires |r| == 8
    ensures var rd := [false] + r;
            (if rd[8] then XorWord(rd[0..8], FLIPS) else rd[0..8]) == FipsStep(r)
  {
  }

  lemma FirstRegister()
    ensures Register(0) == FIRST && FIRST[0]
  {
  }

  lemma NextRegister(t: nat)
    requires t > 0
    ensures Register(t) == FipsStep(Register(t - 1))
  {
  }

  /** The output of the register, for 0 to 255 steps. */
  method OutputBits() returns (rc: array<bool>)
    ensures fresh(rc) && rc.Length == 256
    ensures forall t :: 0 <= t < 256 ==> rc[t] == Register(t)[0]
  {
    hide FipsStep, XorWord, Register;
    FirstRegister();
    rc := new bool[256](_ => false);
    var r := FIRST;
    rc[0] := true;
    for i := 1 to 256
      invariant r == Register(i - 1)
      invariant forall t :: 0 <= t < i ==> rc[t] == Register(t)[0]
    {
      var rd := [false] + r;
      StepIsFips(r);
      NextRegister(i);
      if rd[8] {
        r := XorWord(rd[0..8], FLIPS);
      } else {
        r := rd[0..8];
      }
      rc[i] := r[0];
    }
  }

  /** Bit 2^j - 1 of the constant of a round is the register's output after j + 7 * round steps,
      for j up to 6; all other bits are zero. */
  ghost predicate IsRoundConstant(c: Word, round: nat) {
    && |c| == 64
    && (forall j :: 0 <= j < 7 ==> Pow2(j) <= 64 && c[Pow2(j) - 1] == Register(j + 7 * round)[0])
    && (forall i :: 0 <= i < 64 && c[i] ==> exists j :: 0 <= j < 7 && Pow2(j) - 1 == i)
  }

  lemma Pow2Six(j: nat)
    requires j < 7
    ensures Pow2(j) <= 64 && forall i :: 0 <= i < j ==> Pow2(i) < Pow2(j)
  {
    assert Pow2(3) == 8;
    assert Pow2(6) == 64;
    if j < 6 {
      Pow2Monotone(j, 6);
    }
    forall i | 0 <= i < j
      ensures Pow2(i) < Pow2(j)
    {
      Pow2Monotone(i, j);
    }
  }

  method RoundConstant(rc: array<bool>, round: nat) returns (c: Word)
    requires rc.Length == 256 && forall t :: 0 <= t < 256 ==> rc[t] == Register(t)[0]
    ensures IsRoundConstant(c, round)
  {
    hide Register;
    var bits := new bool[64](_ => false);
    for j := 0 to 7
      invariant forall h :: 0 <= h < j ==> Pow2(h) <= 64 && bits[Pow2(h) - 1] == Register(h + 7 * round)[0]
      invariant forall i :: 0 <= i < 64 && bits[i] ==> exists h :: 0 <= h < j && Pow2(h) - 1 == i
      invariant forall t :: 0 <= t < 256 ==> rc[t] == Register(t)[0]
    {
      Pow2Six(j);
      RegisterMod(j + 7 * round);
      bits[Pow2(j) - 1] := rc[(j + 7 * round) % 255];
    }
    c := bits[..];
  }

  /** The constants of the first `rounds` rounds; none when that is less than one. */
  method RoundConstants(rounds: int) returns (rcs: seq<Word>)
    ensures |rcs| == if rounds < 1 then 0 else rounds
    ensures forall round :: 0 <= round < |rcs| ==> IsRoundConstant(rcs[round], round)
  {
    hide Register, IsRoundConstant;
    var rc := OutputBits();
    rcs := [];
    var round := 0;
    while round < rounds
      invariant round == |rcs| && (round == 0 || round <= rounds)
      invariant forall t :: 0 <= t < 256 ==> rc[t] == Register(t)[0]
      invariant forall n :: 0 <= n < |rcs| ==> IsRoundConstant(rcs[n], n)
    {
      var c := RoundConstant(rc, round);
      rcs := rcs + [c];
      round := round + 1;
    }
  }

  // ----- rndhex -----

  /** Hexadecimal digits of a string of bits, the most significant bit of each digit first. */
  function HexDigits(w: Word): (ds: seq<nat>) {
    if |w| < 4 then []
    else [8 * B2N(w[0]) + 4 * B2N(w[1]) + 2 * B2N(w[2]) + B2N(w[3])] + HexDigits(w[4..])
  }

  function RndHex(w: Word): seq<nat> {
    HexDigits(Reverse(w))
  }

  function HexValue(ds: seq<nat>): nat {
    if ds == [] then 0 else 16 * HexValue(ds[..|ds| - 1]) + ds[|ds| - 1]
  }

  lemma {:induction false} HexDigitsSnoc(w: Word, last: Word)
    requires |w| % 4 == 0 && |last| == 4
    ensures HexDigits(w + last) == HexDigits(w) + HexDigits(last)
  {
    if w == [] {
      assert w + last == last;
    } else {
      assert (w + last)[4..] == w[4..] + last;
      HexDigitsSnoc(w[4..], last);
    }
  }

  lemma OneDigit(w: Word)
    requires |w| == 4
    ensures HexDigits(Reverse(w)) == [8 * B2N(w[3]) + 4 * B2N(w[2]) + 2 * B2N(w[1]) + B2N(w[0])]
  {
    assert HexDigits(Reverse(w)[4..]) == [];
  }

  lemma LowDigit(w: Word)
    requires |w| >= 4
    ensures HexDigits(Reverse(w[..4])) != []
    ensures ToNat(w) == 16 * ToNat(w[4..]) + HexDigits(Reverse(w[..4]))[0]
  {
    hide HexDigits, Reverse, ToNat, B2N;
    OneDigit(w[..4]);
    TailValue(w);
    TailValue(w[1..]);
    TailValue(w[2..]);
    TailValue(w[3..]);
    FourBits(ToNat(w), ToNat(w[1..]), ToNat(w[2..]), ToNat(w[3..]), ToNat(w[4..]),
             B2N(w[0]), B2N(w[1]), B2N(w[2]), B2N(w[3]));
  }

  lemma FourBits(v0: nat, v1: nat, v2: nat, v3: nat, v4: nat, b0: nat, b1: nat, b2: nat, b3: nat)
    requires v0 == b0 + 2 * v1 && v1 == b1 + 2 * v2 && v2 == b2 + 2 * v3 && v3 == b3 + 2 * v4
    ensures v0 == 16 * v4 + (8 * b3 + 4 * b2 + 2 * b1 + b0)
  {
  }

  lemma TailValue(w: Word)
    requires w != []
    ensures ToNat(w) == B2N(w[0]) + 2 * ToNat(w[1..])
  {
  }

  /** One digit, of the hexadecimal ones, for every four bits. */
  lemma {:induction false} HexDigitsRange(w: Word)
    ensures |HexDigits(w)| == |w| / 4
    ensures forall i :: 0 <= i < |HexDigits(w)| ==> HexDigits(w)[i] < 16
  {
    if |w| >= 4 {
      HexDigitsRange(w[4..]);
    }
  }

  /** What is printed is the number with bit i of the constant at weight 2^i, one hexadecimal digit
      for every four bits. */
  lemma {:induction false} RndHexValue(w: Word)
    requires |w| % 4 == 0
    ensures HexValue(RndHex(w)) == ToNat(w)
    ensures |RndHex(w)| == |w| / 4 && forall i :: 0 <= i < |RndHex(w)| ==> RndHex(w)[i] < 16
  {
    HexDigitsRange(Reverse(w));
    if w != [] {
      var rest := w[4..];
      var last := Reverse(w[..4]);
      assert Reverse(w) == Reverse(rest) + last;
      HexDigitsSnoc(Reverse(rest), last);
      RndHexValue(rest);
      LowDigit(w);
      assert |HexDigits(last)| == 1;
      assert HexDigits(last) == [HexDigits(last)[0]];
      hide HexDigits, Reverse, ToNat;
      assert RndHex(w)[..|RndHex(w)| - 1] == RndHex(rest);
    }
  }
}
