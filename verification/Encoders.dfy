/** The other two encoders: the Python `_ecc_encode` over binary strings, and the generated
    C function over bytes. */
module Encoders {
  import opened Sequences
  import opened Bits
  import opened Secded

  // ----- binary strings, most significant digit first -----

  predicate Binary(s: string) {
    forall i :: 0 <= i < |s| ==> s[i] == '0' || s[i] == '1'
  }

  function Digit(b: bool): char {
    if b then '1' else '0'
  }

  /** The string whose reversal spells `w`. */
  function Show(w: Word): (s: string)
    ensures |s| == |w| && Binary(s)
  {
    seq(|w|, i requires 0 <= i < |w| => Digit(w[|w| - 1 - i]))
  }

  /** Number of binary digits of `v`. */
  function BitLength(v: nat): nat {
    if v == 0 then 0 else 1 + BitLength(v / 2)
  }

  function Max(a: nat, b: nat): nat {
    if a >= b then a else b
  }

  /** `format(v, '0<width>b')`: at least one digit, padded with zeros to `width`. */
  function FormatBin(v: nat, width: nat): string {
    Show(FromNat(v, Max(width, Max(1, BitLength(v)))))
  }

  /** `int(s, 2)`. */
  function ParseBin(s: string): nat {
    if s == "" then 0 else 2 * ParseBin(s[..|s| - 1]) + if s[|s| - 1] == '1' then 1 else 0
  }

  lemma {:induction false} BitLengthBound(v: nat)
    ensures v < Pow2(BitLength(v))
  {
    if v > 0 {
      BitLengthBound(v / 2);
    }
  }

  lemma {:induction false} BitLengthLeast(v: nat, n: nat)
    requires v < Pow2(n)
    ensures BitLength(v) <= n
  {
    if v > 0 {
      BitLengthLeast(v / 2, n - 1);
    }
  }

  lemma {:induction false} ParseShow(w: Word)
    ensures ParseBin(Show(w)) == ToNat(w)
  {
    if w != [] {
      var s := Show(w);
      assert s[..|s| - 1] == Show(w[1..]);
      assert s[|s| - 1] == Digit(w[0]);
      ParseShow(w[1..]);
    } else {
      assert Show(w) == "";
    }
  }

  // ----- _ecc_encode -----

  /** The parity equations in order, inverting each odd one as it is computed. */
  function Eager(word: Word, masks: seq<nat>, invert: bool): (w: Word)
    ensures |w| == |word| + |masks|
    decreases |masks|
  {
    if masks == [] then word
    else
      var w := Eager(word, masks[..|masks| - 1], invert);
      w + [XorAll(AndMask(w, masks[|masks| - 1])) != (invert && (|masks| - 1) % 2 == 1)]
  }

  /** Masks that only refer to bits the encoder has already produced. */
  ghost predicate MasksReady(masks: seq<nat>, k: nat) {
    forall j :: 0 <= j < |masks| ==> masks[j] < Pow2(k + j)
  }

  /** XOR of the digits of `w` selected by the low `n` digits of `mask`. */
  lemma XorAllPrefix(w: Word, mask: nat, n: nat)
    requires n < |w|
    ensures XorAll(AndMask(w[..n + 1], mask)) ==
            (XorAll(AndMask(w[..n], mask)) != (w[n] && BitAt(mask, n)))
  {
    assert AndMask(w[..n + 1], mask) == AndMask(w[..n], mask) + [w[n] && BitAt(mask, n)];
    XorAllAppend(AndMask(w[..n], mask), [w[n] && BitAt(mask, n)]);
    XorAllOne(w[n] && BitAt(mask, n));
  }

  lemma XorAllOne(b: bool)
    ensures XorAll([b]) == b
  {
    assert [b][1..] == [];
  }

  lemma {:induction false} XorAllBeyond(w: Word, mask: nat, n: nat)
    requires n <= |w| && mask < Pow2(n)
    ensures XorAll(AndMask(w, mask)) == XorAll(AndMask(w[..n], mask))
    decreases |w|
  {
    if n < |w| {
      var h := |w| - 1;
      XorAllPrefix(w, mask, h);
      BitAtBound(mask, n, h);
      XorAllBeyond(w[..h], mask, n);
      assert w[..h + 1] == w && w[..h][..n] == w[..n];
    } else {
      assert w[..n] == w;
    }
  }

  /** One parity bit: the inner loop over the digits of a mask of the codeword so far. */
  method ParityBit(codeword: string, ghost w: Word, mask: nat, width: nat) returns (bit: bool)
    requires codeword == Show(w) && mask < Pow2(|w|) && |w| >= 1
    ensures bit == XorAll(AndMask(w, mask))
  {
    hide Pow2, ToNat, BitLength, AndMask;
    bit := false;
    var maskRev := Reverse(FormatBin(mask, width));
    var codewordRev := Reverse(codeword);
    assert |codewordRev| == |w| && forall i :: 0 <= i < |w| ==> codewordRev[i] == Digit(w[i]);
    assert forall i :: 0 <= i < |maskRev| ==> maskRev[i] == Digit(BitAt(mask, i));
    ghost var n := |w|;
    for idx := 0 to |maskRev|
      invariant bit == XorAll(AndMask(w[..if idx <= n then idx else n], mask))
    {
      if idx >= n {
        BitAtBound(mask, n, idx);
      } else {
        XorAllPrefix(w, mask, idx);
      }
      if maskRev[idx] == '1' {
        bit := bit != (codewordRev[idx] == '1');
      }
    }
    BitLengthLeast(mask, n);
    BitLengthBound(mask);
    if |maskRev| <= n {
      assert mask < Pow2(|maskRev|) by {
        Pow2Monotone(|maskRev|, BitLength(mask));
      }
      XorAllBeyond(w, mask, |maskRev|);
    } else {
      assert w[..n] == w;
    }
  }

  lemma ShowSnoc(w: Word, b: bool)
    ensures Show(w + [b]) == [Digit(b)] + Show(w)
  {
  }

  lemma EagerStep(word: Word, masks: seq<nat>, invert: bool, j: nat)
    requires j < |masks|
    ensures var w := Eager(word, masks[..j], invert);
            Eager(word, masks[..j + 1], invert) == w + [XorAll(AndMask(w, masks[j])) != (invert && j % 2 == 1)]
  {
    assert masks[..j + 1][..j] == masks[..j];
  }

  /** The loop of `_ecc_encode`, which prepends one parity digit per mask. */
  method EccEncode(k: nat, m: nat, bitmasks: seq<nat>, invert: bool, dataword: nat) returns (codeword: string)
    requires k >= 1 && |bitmasks| == m && dataword < Pow2(k) && MasksReady(bitmasks, k)
    ensures codeword == Show(Eager(FromNat(dataword, k), bitmasks, invert))
  {
    BitLengthLeast(dataword, k);
    codeword := FormatBin(dataword, k);
    ghost var w := FromNat(dataword, k);
    assert Max(k, Max(1, BitLength(dataword))) == k;
    assert bitmasks[..0] == [];
    hide Show, FormatBin, BitLength, Eager, AndMask, XorAll, FromNat;
    for j := 0 to m
      invariant w == Eager(FromNat(dataword, k), bitmasks[..j], invert)
      invariant codeword == Show(w)
    {
      var bit := ParityBit(codeword, w, bitmasks[j], j + m);
      bit := bit != (invert && j % 2 == 1);
      codeword := [Digit(bit)] + codeword;
      EagerStep(FromNat(dataword, k), bitmasks, invert, j);
      ShowSnoc(w, bit);
      w := w + [bit];
    }
    assert bitmasks[..m] == bitmasks;
  }

  // ----- agreement with the printed encoder -----

  lemma {:induction false} ToNatBoundByBits(w: Word, n: nat)
    requires forall i :: n <= i < |w| ==> !w[i]
    ensures ToNat(w) < Pow2(n)
  {
    if w != [] {
      if n == 0 {
        ToNatBoundByBits(w[1..], 0);
      } else {
        ToNatBoundByBits(w[1..], n - 1);
      }
    }
  }

  lemma EncMasksReady(k: nat, m: nat, codes: seq<Column>)
    requires MatrixOk(k, m, codes)
    ensures MasksReady(Masks(k, m, codes, false), k)
  {
    forall j | 0 <= j < m
      ensures Masks(k, m, codes, false)[j] < Pow2(k + j)
    {
      ToNatBoundByBits(seq(|codes|, i requires 0 <= i < |codes| => j in codes[i]), k + j);
    }
  }

  lemma {:induction false} EagerKeeps(word: Word, masks: seq<nat>, invert: bool)
    ensures Eager(word, masks, invert)[..|word|] == word
    decreases |masks|
  {
    if masks != [] {
      var init := Eager(word, masks[..|masks| - 1], invert);
      EagerKeeps(word, masks[..|masks| - 1], invert);
      assert Eager(word, masks, invert)[..|word|] == init[..|word|];
    }
  }

  /** What `Eager` computes: every digit satisfies its equation over the digits before it. */
  lemma {:induction false} EagerSolves(word: Word, masks: seq<nat>, invert: bool, j: nat)
    requires MasksReady(masks, |word|) && j < |masks|
    ensures var w := Eager(word, masks, invert);
            w[|word| + j] == (XorAll(AndMask(w, masks[j])) != (invert && j % 2 == 1))
    decreases |masks|
  {
    var n := |masks| - 1;
    var w, init := Eager(word, masks, invert), Eager(word, masks[..n], invert);
    assert w == init + [XorAll(AndMask(init, masks[n])) != (invert && n % 2 == 1)];
    hide Eager, AndMask, XorAll;
    assert w[..|init|] == init;
    EagerExtends(w, init, masks[j], |word| + j);
    if j < n {
      EagerSolves(word, masks[..n], invert, j);
    }
  }

  lemma EagerExtends(w: Word, init: Word, mask: nat, n: nat)
    requires n <= |init| <= |w| && w[..|init|] == init && mask < Pow2(n)
    ensures XorAll(AndMask(w, mask)) == XorAll(AndMask(init, mask))
  {
    XorAllBeyond(w, mask, n);
    XorAllBeyond(init, mask, n);
    assert w[..n] == init[..n];
  }

  /** Masks with data bits only: a parity digit depends on the data alone. */
  lemma DataMaskAgrees(codes: seq<Column>, j: nat, k: nat, v: Word, w: Word)
    requires k <= |v| && k <= |w| && v[..k] == w[..k]
    requires forall i :: k <= i < |codes| ==> j !in codes[i]
    ensures XorAll(AndMask(v, EncMask(codes, j))) == XorAll(AndMask(w, EncMask(codes, j)))
  {
    ToNatBoundByBits(seq(|codes|, h requires 0 <= h < |codes| => j in codes[h]), k);
    XorAllBeyond(v, EncMask(codes, j), k);
    XorAllBeyond(w, EncMask(codes, j), k);
  }

  /** The digits of the eager word `e`, the word `p` before inversion and the printed word `w`. */
  ghost predicate Digits(inv: bool, k: nat, m: nat, codes: seq<Column>, data: Word, e: Word, p: Word, w: Word) {
    && |data| == k && |e| == |p| == |w| == k + m
    && e[..k] == data && p[..k] == data && w[..k] == data
    && (forall i :: k <= i < k + m ==> e[i] == (XorAll(AndMask(e, EncMask(codes, i - k))) != (inv && (i - k) % 2 == 1)))
    && (forall i :: k <= i < k + m ==> p[i] == XorAll(AndMask(p, EncMask(codes, i - k))))
    && (forall i :: k <= i < k + m ==> w[i] == (p[i] != (inv && (i - k) % 2 == 1)))
  }

  lemma MaskIsEncMask(k: nat, m: nat, codes: seq<Column>, j: nat)
    requires j < m
    ensures Masks(k, m, codes, false)[j] == EncMask(codes, j)
  {
  }

  lemma EagerDigit(k: nat, m: nat, codes: seq<Column>, data: Word, inv: bool, i: nat)
    requires MatrixOk(k, m, codes) && |data| == k && k <= i < k + m
    ensures var e := Eager(data, Masks(k, m, codes, false), inv);
            && e[..k] == data
            && e[i] == (XorAll(AndMask(e, EncMask(codes, i - k))) != (inv && (i - k) % 2 == 1))
  {
    hide Eager, EncMask, AndMask, XorAll;
    EncMasksReady(k, m, codes);
    EagerKeeps(data, Masks(k, m, codes, false), inv);
    EagerSolves(data, Masks(k, m, codes, false), inv, i - k);
    MaskIsEncMask(k, m, codes, i - k);
  }

  lemma PlainDigit(k: nat, m: nat, codes: seq<Column>, data: Word, i: nat)
    requires MatrixOk(k, m, codes) && |data| == k && k <= i < k + m
    ensures var p := Plain(k, m, codes, data);
            p[..k] == data && p[i] == XorAll(AndMask(p, EncMask(codes, i - k)))
  {
    hide Plain, EncMask, AndMask, XorAll;
    PlainSolves(k, m, codes, data);
    MaskIsEncMask(k, m, codes, i - k);
  }

  lemma PrintedDigit(ct: CodeType, k: nat, m: nat, codes: seq<Column>, data: Word, i: nat)
    requires |data| == k && k <= i < k + m
    ensures Encode(ct, k, m, codes, data)[i] == (Plain(k, m, codes, data)[i] != (ct.Inverted() && (i - k) % 2 == 1))
  {
    InvWordBit(ct, k, m, i);
  }

  lemma EncoderDigits(ct: CodeType, k: nat, m: nat, codes: seq<Column>, data: Word)
    requires MatrixOk(k, m, codes) && |data| == k && m >= 1
    ensures Digits(ct.Inverted(), k, m, codes, data, Eager(data, Masks(k, m, codes, false), ct.Inverted()),
                   Plain(k, m, codes, data), Encode(ct, k, m, codes, data))
  {
    hide Eager, Plain, Encode, EncMask, AndMask, XorAll, MatrixOk;
    var e, p := Eager(data, Masks(k, m, codes, false), ct.Inverted()), Plain(k, m, codes, data);
    var w := Encode(ct, k, m, codes, data);
    EagerDigit(k, m, codes, data, ct.Inverted(), k);
    PlainDigit(k, m, codes, data, k);
    EncodeKeepsData(ct, k, m, codes, data);
    forall i | k <= i < k + m
      ensures e[i] == (XorAll(AndMask(e, EncMask(codes, i - k))) != (ct.Inverted() && (i - k) % 2 == 1))
      ensures p[i] == XorAll(AndMask(p, EncMask(codes, i - k)))
      ensures w[i] == (p[i] != (ct.Inverted() && (i - k) % 2 == 1))
    {
      EagerDigit(k, m, codes, data, ct.Inverted(), i);
      PlainDigit(k, m, codes, data, i);
      PrintedDigit(ct, k, m, codes, data, i);
    }
  }

  /** A digit of the two encoders whose check involves data bits only. */
  lemma DataDigitAgrees(inv: bool, k: nat, m: nat, codes: seq<Column>, data: Word, e: Word, p: Word, w: Word, j: nat)
    requires Digits(inv, k, m, codes, data, e, p, w) && j < m
    requires forall i :: k <= i < |codes| ==> j !in codes[i]
    ensures e[k + j] == w[k + j]
  {
    DataMaskAgrees(codes, j, k, e, p);
  }

  /** For Hsiao matrices, whose masks only select data bits, the encoders agree. */
  lemma HsiaoEncodersAgree(ct: CodeType, k: nat, m: nat, codes: seq<Column>, data: Word)
    requires !ct.IsHamming() && HsiaoMatrix(k, m, codes) && |data| == k && m >= 1
    ensures Eager(data, Masks(k, m, codes, false), ct.Inverted()) == Encode(ct, k, m, codes, data)
  {
    EncoderDigits(ct, k, m, codes, data);
    HsiaoDigits(ct.Inverted(), k, m, codes, data, Eager(data, Masks(k, m, codes, false), ct.Inverted()),
                Plain(k, m, codes, data), Encode(ct, k, m, codes, data));
  }

  lemma HsiaoDigits(inv: bool, k: nat, m: nat, codes: seq<Column>, data: Word, e: Word, p: Word, w: Word)
    requires Digits(inv, k, m, codes, data, e, p, w) && |codes| == k
    ensures e == w
  {
    forall i | 0 <= i < k + m
      ensures e[i] == w[i]
    {
      if i < k {
        assert e[i] == e[..k][i] && w[i] == w[..k][i];
      } else {
        DataDigitAgrees(inv, k, m, codes, data, e, p, w, i - k);
      }
    }
  }

  /** The word with a one at every odd index. */
  function Odds(n: nat): (w: Word)
    ensures |w| == n
  {
    seq(n, i => i % 2 == 1)
  }

  lemma {:induction false} XorAllOdds(n: nat)
    ensures XorAll(Odds(n)) == ((n / 2) % 2 == 1)
  {
    if n > 0 {
      XorAllOdds(n - 1);
      assert n / 2 == (n - 1) / 2 + if n % 2 == 0 then 1 else 0;
      assert Odds(n) == Odds(n - 1) + [(n - 1) % 2 == 1];
      XorAllAppend(Odds(n - 1), [(n - 1) % 2 == 1]);
      XorAllOne((n - 1) % 2 == 1);
    }
  }

  /** What an overall parity over the first `k + n` bits sees of inverted odd parity bits. */
  lemma ParityOfInverted(p: Word, e: Word, mask: nat, k: nat, n: nat, invert: bool)
    requires |p| == |e| == k + n
    requires forall i :: 0 <= i < k ==> p[i] == e[i]
    requires forall i :: k <= i < k + n ==> BitAt(mask, i) && e[i] == (p[i] != (invert && (i - k) % 2 == 1))
    ensures XorAll(AndMask(e, mask)) == (XorAll(AndMask(p, mask)) != (invert && (n / 2) % 2 == 1))
  {
    var d := Zeros(k) + if invert then Odds(n) else Zeros(n);
    forall i | 0 <= i < k + n
      ensures AndMask(e, mask)[i] == XorWord(AndMask(p, mask), d)[i]
    {
      if i >= k {
        assert d[i] == (invert && (i - k) % 2 == 1);
      }
    }
    assert AndMask(e, mask) == XorWord(AndMask(p, mask), d);
    XorAllLinear(AndMask(p, mask), d);
    XorAllAppend(Zeros(k), if invert then Odds(n) else Zeros(n));
    XorAllZeros(Zeros(k));
    XorAllZeros(Zeros(n));
    XorAllOdds(n);
  }

  /** For Hamming matrices the encoders agree on all bits but the last; on the last one they
      differ exactly for the inverted code when `(m - 1) / 2` is odd, since the Python loop
      feeds already inverted parity bits into the overall parity. */
  lemma HammingEncodersCompare(ct: CodeType, k: nat, m: nat, codes: seq<Column>, data: Word)
    requires ct.IsHamming() && HammingMatrix(k, m, codes) && |data| == k
    ensures var e, w := Eager(data, Masks(k, m, codes, false), ct.Inverted()), Encode(ct, k, m, codes, data);
            && e[..k + m - 1] == w[..k + m - 1]
            && (e == w <==> !(ct.Inverted() && ((m - 1) / 2) % 2 == 1))
  {
    EncoderDigits(ct, k, m, codes, data);
    HammingDigits(ct.Inverted(), k, m, codes, data, Eager(data, Masks(k, m, codes, false), ct.Inverted()),
                  Plain(k, m, codes, data), Encode(ct, k, m, codes, data));
  }

  lemma HammingDigits(inv: bool, k: nat, m: nat, codes: seq<Column>, data: Word, e: Word, p: Word, w: Word)
    requires Digits(inv, k, m, codes, data, e, p, w) && HammingMatrix(k, m, codes)
    ensures e[..k + m - 1] == w[..k + m - 1]
    ensures e == w <==> !(inv && ((m - 1) / 2) % 2 == 1)
  {
    var n := k + m - 1;
    forall i | 0 <= i < n
      ensures e[..n][i] == w[..n][i]
    {
      if i < k {
        assert e[i] == e[..k][i] && w[i] == w[..k][i];
      } else {
        DataDigitAgrees(inv, k, m, codes, data, e, p, w, i - k);
      }
    }
    assert e[..n] == w[..n];
    LastDigit(inv, k, m, codes, data, e, p, w);
    assert e == e[..n] + [e[n]] && w == w[..n] + [w[n]];
  }

  lemma LastDigit(inv: bool, k: nat, m: nat, codes: seq<Column>, data: Word, e: Word, p: Word, w: Word)
    requires Digits(inv, k, m, codes, data, e, p, w) && HammingMatrix(k, m, codes)
    requires e[..k + m - 1] == w[..k + m - 1]
    ensures e[k + m - 1] == (w[k + m - 1] != (inv && ((m - 1) / 2) % 2 == 1))
  {
    var mask, n := EncMask(codes, m - 1), k + m - 1;
    LastMaskBits(k, m, codes, mask);
    ToNatBoundByBits(seq(|codes|, h requires 0 <= h < |codes| => m - 1 in codes[h]), n);
    XorAllBeyond(e, mask, n);
    XorAllBeyond(p, mask, n);
    assert e[n] == (XorAll(AndMask(e, mask)) != (inv && (m - 1) % 2 == 1));
    assert p[n] == XorAll(AndMask(p, mask));
    hide EncMask, AndMask, XorAll, BitAt, HammingMatrix;
    forall i | 0 <= i < k
      ensures p[..n][i] == e[..n][i]
    {
      assert p[i] == p[..k][i] && e[i] == e[..k][i];
    }
    forall i | k <= i < n
      ensures e[..n][i] == (p[..n][i] != (inv && (i - k) % 2 == 1))
    {
      assert e[..n][i] == w[..n][i];
    }
    ParityOfInverted(p[..n], e[..n], mask, k, m - 1, inv);
  }

  lemma LastMaskBits(k: nat, m: nat, codes: seq<Column>, mask: nat)
    requires HammingMatrix(k, m, codes) && mask == EncMask(codes, m - 1)
    ensures forall i: nat :: k <= i < k + m - 1 ==> BitAt(mask, i)
  {
    forall i: nat | k <= i < k + m - 1
      ensures BitAt(mask, i)
    {
      EncMaskBit(codes, m - 1, i);
    }
  }

  // ----- the generated C encoder -----

  /** `calc_parity`: parity of the ones of a word, optionally inverted. */
  method CalcParity(word: nat, invert: bool) returns (parity: bool)
    ensures forall w: Word :: ToNat(w) == word ==> parity == (XorAll(w) != invert)
  {
    parity := false;
    var rest := word;
    while rest != 0
      invariant parity == (ParityOf(word) != ParityOf(rest))
      decreases rest
    {
      if BitAnd(rest, 1) != 0 {
        parity := !parity;
      }
      AndOne(rest);
      rest := rest / 2;
    }
    parity := parity != invert;
    forall w: Word | ToNat(w) == word
      ensures parity == (XorAll(w) != invert)
    {
      ParityOfWord(w);
    }
  }

  function ParityOf(v: nat): bool {
    if v == 0 then false else (v % 2 == 1) != ParityOf(v / 2)
  }

  lemma AndOne(v: nat)
    ensures BitAnd(v, 1) == v % 2
  {
    assert BitAnd(v / 2, 0) == 0;
  }

  lemma {:induction false} ParityOfWord(w: Word)
    ensures ParityOf(ToNat(w)) == XorAll(w)
  {
    if w != [] {
      ParityOfWord(w[1..]);
      assert ToNat(w) / 2 == ToNat(w[1..]);
    }
  }

  /** The input word: `bytes[0] | bytes[1] << 8 | ...`. */
  method JoinBytes(bytes: seq<nat>) returns (word: nat)
    requires forall i :: 0 <= i < |bytes| ==> bytes[i] < 256
    ensures word < Pow2(8 * |bytes|)
    ensures forall i: nat :: BitAt(word, i) == (i < 8 * |bytes| && BitAt(bytes[i / 8], i % 8))
  {
    word := 0;
    forall i: nat
      ensures !BitAt(0, i)
    {
      BitAtZero(i);
    }
    for b := 0 to |bytes|
      invariant word < Pow2(8 * b)
      invariant forall i: nat :: BitAt(word, i) == (i < 8 * b && BitAt(bytes[i / 8], i % 8))
    {
      JoinStep(word, bytes, b);
      word := BitOr(word, bytes[b] * Pow2(8 * b));
    }
  }

  lemma JoinStep(word: nat, bytes: seq<nat>, b: nat)
    requires b < |bytes| && bytes[b] < 256 && word < Pow2(8 * b)
    requires forall i: nat :: BitAt(word, i) == (i < 8 * b && BitAt(bytes[i / 8], i % 8))
    ensures var w := BitOr(word, bytes[b] * Pow2(8 * b));
            && w < Pow2(8 * (b + 1))
            && forall i: nat :: BitAt(w, i) == (i < 8 * (b + 1) && BitAt(bytes[i / 8], i % 8))
  {
    var w := BitOr(word, bytes[b] * Pow2(8 * b));
    assert Pow2(8) == 256;
    forall i: nat
      ensures BitAt(w, i) == (i < 8 * (b + 1) && BitAt(bytes[i / 8], i % 8))
    {
      BitOrBit(word, bytes[b] * Pow2(8 * b), i);
      ShiftBits(bytes[b], 8 * b, i);
      if i >= 8 * (b + 1) {
        BitAtBound(bytes[b], 8, i - 8 * b);
      } else if i >= 8 * b {
        assert i / 8 == b && i % 8 == i - 8 * b;
      }
    }
    BoundByBits(w, 8 * (b + 1));
  }

  lemma {:induction false} BoundByBits(v: nat, n: nat)
    requires forall i: nat :: i >= n ==> !BitAt(v, i)
    ensures v < Pow2(n)
    decreases n + v
  {
    if v > 0 {
      if n == 0 {
        assert !BitAt(v, 0);
        forall i: nat
          ensures !BitAt(v / 2, i)
        {
          assert !BitAt(v, i + 1);
        }
        BoundByBits(v / 2, 0);
      } else {
        forall i: nat | i >= n - 1
          ensures !BitAt(v / 2, i)
        {
          assert !BitAt(v, i + 1);
        }
        BoundByBits(v / 2, n - 1);
      }
    }
  }

  /** The value of the C expression for a word: the parity of each row's selection, shifted to the
      row's place, or-ed together. */
  function CField(masks: seq<nat>, invert: bool, word: nat): nat {
    if masks == [] then 0
    else
      var j := |masks| - 1;
      BitOr(CField(masks[..j], invert, word),
            B2N(ParityOf(BitAnd(word, masks[j])) != (invert && j % 2 == 1)) * Pow2(j))
  }

  /** It is the parity field of the eager word, as a number. */
  lemma {:induction false} CFieldIsField(masks: seq<nat>, invert: bool, data: Word)
    requires forall j :: 0 <= j < |masks| ==> masks[j] < Pow2(|data|)
    ensures |Eager(data, masks, invert)| == |data| + |masks| && Eager(data, masks, invert)[..|data|] == data
    ensures CField(masks, invert, ToNat(data)) == ToNat(Eager(data, masks, invert)[|data|..])
    decreases |masks|
  {
    EagerKeeps(data, masks, invert);
    if masks != [] {
      var j, word := |masks| - 1, ToNat(data);
      var parity := ParityOf(BitAnd(word, masks[j])) != (invert && j % 2 == 1);
      CFieldIsField(masks[..j], invert, data);
      var field := Eager(data, masks[..j], invert)[|data|..];
      assert Eager(data, masks[..j], invert) == data + field;
      FromNatToNat(data);
      forall w: Word | ToNat(w) == BitAnd(word, masks[j])
        ensures parity == (XorAll(w) != (invert && j % 2 == 1))
      {
        ParityOfWord(w);
      }
      hide Eager, ParityOf, BitAnd, BitOr, ToNat, FromNat;
      CBit(word, data, field, masks, invert, j, parity);
      assert masks[..j + 1] == masks;
      assert (data + (field + [parity]))[|data|..] == field + [parity];
    }
  }

  /** The body of the generated C function for a Hsiao matrix: one `calc_parity` per row. */
  method CEncode(k: nat, masks: seq<nat>, invert: bool, bytes: seq<nat>) returns (r: nat)
    requires |bytes| == (k + 7) / 8 && k <= 64
    requires forall i :: 0 <= i < |bytes| ==> bytes[i] < 256
    requires forall j :: 0 <= j < |masks| ==> masks[j] < Pow2(k)
    ensures forall data: Word :: |data| == k && (forall i :: 0 <= i < k ==> data[i] == BitAt(bytes[i / 8], i % 8))
              ==> r == CField(masks, invert, ToNat(data))
  {
    var word := JoinBytes(bytes);
    ghost var data := FromNat(word, k);
    forall other: Word | |other| == k && (forall i :: 0 <= i < k ==> other[i] == BitAt(bytes[i / 8], i % 8))
      ensures other == data
    {
    }
    r := 0;
    ghost var field := [];
    for j := 0 to |masks|
      invariant |field| == j && r == ToNat(field)
      invariant Eager(data, masks[..j], invert) == data + field
    {
      var parity := CalcParity(BitAnd(word, masks[j]), invert && j % 2 == 1);
      CBit(word, data, field, masks, invert, j, parity);
      r := BitOr(r, B2N(parity) * Pow2(j));
      field := field + [parity];
    }
    assert masks[..|masks|] == masks;
    assert (data + field)[k..] == field;
    CFieldIsField(masks, invert, data);
  }

  /** One row of the C expression adds the next bit of the parity field. */
  lemma CBit(word: nat, data: Word, field: Word, masks: seq<nat>, invert: bool, j: nat, parity: bool)
    requires data == FromNat(word, |data|) && j < |masks| && |field| == j && masks[j] < Pow2(|data|)
    requires Eager(data, masks[..j], invert) == data + field
    requires forall w: Word :: ToNat(w) == BitAnd(word, masks[j]) ==> parity == (XorAll(w) != (invert && j % 2 == 1))
    ensures Eager(data, masks[..j + 1], invert) == data + (field + [parity])
    ensures BitOr(ToNat(field), B2N(parity) * Pow2(j)) == ToNat(field + [parity])
  {
    var k := |data|;
    var selected := AndMask(data, masks[j]);
    forall i: nat
      ensures BitAt(ToNat(selected), i) == BitAt(BitAnd(word, masks[j]), i)
    {
      BitAtToNat(selected, i);
      BitAndBit(word, masks[j], i);
      if i >= k {
        BitAtBound(masks[j], k, i);
      }
    }
    BitsDetermine(ToNat(selected), BitAnd(word, masks[j]));
    EagerStep(data, masks, invert, j);
    XorAllBeyond(data + field, masks[j], k);
    assert (data + field)[..k] == data;
    assert (data + field) + [parity] == data + (field + [parity]);
    ToNatBound(field);
    OrIsAdd(ToNat(field), j, parity);
    ToNatSnoc(field, parity);
  }

  /** All three encoders compute the same word for Hsiao matrices: the Python string parses to the
      printed encoder's word, and the C function returns the parity bits of that word. */
  lemma ThreeEncodersAgree(ct: CodeType, k: nat, m: nat, codes: seq<Column>, data: Word)
    requires !ct.IsHamming() && HsiaoMatrix(k, m, codes) && |data| == k && m >= 1
    ensures var w := Encode(ct, k, m, codes, data);
            var masks := Masks(k, m, codes, false);
            && ParseBin(Show(Eager(data, masks, ct.Inverted()))) == ToNat(w)
            && CField(masks, ct.Inverted(), ToNat(data)) == ToNat(w[k..])
            && w[..k] == data
            && forall j :: 0 <= j < m ==> masks[j] < Pow2(k)
  {
    var masks := Masks(k, m, codes, false);
    forall j | 0 <= j < m
      ensures masks[j] < Pow2(k)
    {
      ToNatBoundByBits(seq(|codes|, h requires 0 <= h < |codes| => j in codes[h]), k);
    }
    HsiaoEncodersAgree(ct, k, m, codes, data);
    hide Masks, Encode, Eager, CField, Show, ParseBin, HsiaoMatrix;
    ParseShow(Encode(ct, k, m, codes, data));
    CFieldIsField(masks, ct.Inverted(), data);
  }
}
