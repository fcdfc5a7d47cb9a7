/** The flash image processor: a 64-bit word gets a Hamming integrity code whose top nibble is
    dropped, and the 68 bits that are left get a Hamming reliability code. */
module FlashImage {
  import opened Bits
  import opened Secded
  import opened HammingGen
  import opened Encoders

  // The shipped configuration uses eight parity bits for both data widths.
  const PARITY: nat := 8

  function HexDigit(d: nat): char
    requires d < 16
  {
    "0123456789abcdef"[d]
  }

  function HexValue(c: char): nat {
    if '0' <= c <= '9' then (c - '0') as int else if 'a' <= c <= 'f' then (c - 'a') as int + 10 else 0
  }

  /** `format(v, '0<width>x')` for a positive width. */
  function FormatHex(v: nat, width: nat): string
    decreases v, width
  {
    if v == 0 && width == 0 then ""
    else FormatHex(v / 16, if width > 0 then width - 1 else 0) + [HexDigit(v % 16)]
  }

  /** `int(s, 16)`. */
  function ParseHex(s: string): nat {
    if s == "" then 0 else 16 * ParseHex(s[..|s| - 1]) + HexValue(s[|s| - 1])
  }

  lemma {:induction false} ParseFormatHex(v: nat, width: nat)
    ensures ParseHex(FormatHex(v, width)) == v
    decreases v, width
  {
    if !(v == 0 && width == 0) {
      var w := if width > 0 then width - 1 else 0;
      ParseFormatHex(v / 16, w);
      var s := FormatHex(v, width);
      assert s[..|s| - 1] == FormatHex(v / 16, w);
      HexDigitValue(v % 16);
    }
  }

  lemma HexDigitValue(d: nat)
    requires d < 16
    ensures HexValue(HexDigit(d)) == d
  {
  }

  /** Lower-case hexadecimal digits only. */
  predicate IsHex(s: string) {
    forall i :: 0 <= i < |s| ==> '0' <= s[i] <= '9' || 'a' <= s[i] <= 'f'
  }

  lemma {:induction false} FormatHexDigits(v: nat, width: nat)
    ensures IsHex(FormatHex(v, width))
    decreases v, width
  {
    if !(v == 0 && width == 0) {
      FormatHexDigits(v / 16, if width > 0 then width - 1 else 0);
    }
  }

  /** `v` reduced to its low `n` bits. */
  function LowBits(v: nat, n: nat): nat {
    if n == 0 then 0 else v % 2 + 2 * LowBits(v / 2, n - 1)
  }

  lemma {:induction false} LowBitsIsPrefix(w: Word, n: nat)
    requires n <= |w|
    ensures LowBits(ToNat(w), n) == ToNat(w[..n])
  {
    if n > 0 {
      assert w[..n][1..] == w[1..][..n - 1];
      LowBitsIsPrefix(w[1..], n - 1);
    }
  }

  lemma LowBitsNibble(v: nat, n: nat)
    requires n >= 4
    ensures LowBits(v, n) / 16 == LowBits(v / 16, n - 4)
    ensures LowBits(v, n) % 16 == v % 16
  {
    var a := LowBits(v / 2 / 2 / 2 / 2, n - 4);
    assert v / 16 == v / 2 / 2 / 2 / 2;
    assert LowBits(v, n) == v % 2 + 2 * LowBits(v / 2, n - 1);
    assert LowBits(v / 2, n - 1) == v / 2 % 2 + 2 * LowBits(v / 2 / 2, n - 2);
    assert LowBits(v / 2 / 2, n - 2) == v / 2 / 2 % 2 + 2 * LowBits(v / 2 / 2 / 2, n - 3);
    assert LowBits(v / 2 / 2 / 2, n - 3) == v / 2 / 2 / 2 % 2 + 2 * a;
  }

  lemma Pow2Nibble(n: nat)
    ensures Pow2(n + 4) == 16 * Pow2(n)
  {
    assert Pow2(n + 4) == 2 * Pow2(n + 3);
    assert Pow2(n + 3) == 2 * Pow2(n + 2);
    assert Pow2(n + 2) == 2 * Pow2(n + 1);
  }

  /** Dropping the first of `width` hex digits keeps the low `4 * (width - 1)` bits. */
  lemma {:induction false} DropNibble(v: nat, width: nat)
    requires width >= 1 && v < Pow2(4 * width)
    ensures |FormatHex(v, width)| == width
    ensures FormatHex(v, width)[1..] == FormatHex(LowBits(v, 4 * (width - 1)), width - 1)
    decreases width
  {
    if width == 1 {
      assert v < 16;
      assert FormatHex(v / 16, 0) == "";
    } else {
      var n := 4 * (width - 1);
      Pow2Nibble(n);
      DropNibble(v / 16, width - 1);
      LowBitsNibble(v, n);
      var init := FormatHex(v / 16, width - 1);
      assert FormatHex(v, width) == init + [HexDigit(v % 16)];
      assert (init + [HexDigit(v % 16)])[1..] == init[1..] + [HexDigit(v % 16)];
    }
  }

  /** The range of parity sizes for which the Hamming construction fits `k` data bits. */
  predicate Fits(k: nat, m: nat) {
    m >= 2 && Pow2(m - 2) < k + m <= Pow2(m - 1)
  }

  lemma ShippedWidthsFit()
    ensures Fits(64, PARITY) && Fits(68, PARITY)
  {
    assert Pow2(6) == 64;
  }

  /** `ecc_encode(config, "hamming", k, value)`. */
  method EccEncodeHamming(k: nat, m: nat, value: nat) returns (result: nat)
    requires k >= 1 && Fits(k, m) && value < Pow2(k)
    ensures result == ToNat(Encode(Hamming, k, m, HammingCode(k, m), FromNat(value, k)))
    ensures result < Pow2(k + m)
  {
    hide HammingCode, ToNat, FromNat, Encode, Show, Eager, ParseBin, HammingMatrix;
    var codes := HammingCode(k, m);
    HammingIsGood(k, m);
    GoodMatrixOk(Hamming, k, m, codes);
    EncMasksReady(k, m, codes);
    var masks := CalcBitmasks(k, m, codes, false);
    var codeword := EccEncode(k, m, masks, false, value);
    HammingEncodersCompare(Hamming, k, m, codes, FromNat(value, k));
    ParseShow(Encode(Hamming, k, m, codes, FromNat(value, k)));
    ToNatBound(Encode(Hamming, k, m, codes, FromNat(value, k)));
    result := ParseBin(codeword);
  }

  method AddIntgEcc(inVal: nat) returns (hex: string)
    requires inVal < Pow2(64)
    ensures ParseHex(hex) == ToNat(Encode(Hamming, 64, PARITY, HammingCode(64, PARITY), FromNat(inVal, 64))[..68])
    ensures |hex| == 17 && IsHex(hex)
  {
    ShippedWidthsFit();
    hide Encode, HammingCode, ToNat, FromNat, FormatHex, ParseHex, Pow2;
    var result := EccEncodeHamming(64, PARITY, inVal);
    ghost var w := Encode(Hamming, 64, PARITY, HammingCode(64, PARITY), FromNat(inVal, 64));
    var nibbles := (PARITY + 3) / 4;
    DropNibble(result, 16 + nibbles);
    FormatHexDigits(result, 16 + nibbles);
    LowBitsIsPrefix(w, 68);
    ParseFormatHex(LowBits(result, 68), 17);
    hex := FormatHex(result, 16 + nibbles)[1..];
  }

  method AddReliabilityEcc(inVal: nat) returns (hex: string)
    requires inVal < Pow2(68)
    ensures ParseHex(hex) == ToNat(Encode(Hamming, 68, PARITY, HammingCode(68, PARITY), FromNat(inVal, 68)))
    ensures |hex| == 19 && IsHex(hex)
  {
    ShippedWidthsFit();
    hide Encode, HammingCode, ToNat, FromNat, FormatHex, ParseHex, Pow2;
    var result := EccEncodeHamming(68, PARITY, inVal);
    ParseFormatHex(result, (68 + PARITY + 3) / 4);
    DropNibble(result, (68 + PARITY + 3) / 4);
    FormatHexDigits(result, (68 + PARITY + 3) / 4);
    hex := FormatHex(result, (68 + PARITY + 3) / 4);
  }

  /** A word stored with `k` data and `m` parity bits, read back through the error `e`. */
  ghost predicate ReadsBack(k: nat, m: nat, stored: nat, data: Word, e: Word)
    requires |data| == k && |e| == k + m && m >= 1 && |HammingCode(k, m)| >= k
  {
    DecodedRight(Decode(Hamming, k, m, HammingCode(k, m), XorWord(FromNat(stored, k + m), e)), data, e)
  }

  lemma StoredWord(k: nat, m: nat, stored: nat, data: Word)
    requires Fits(k, m) && |data| == k
    requires stored == ToNat(Encode(Hamming, k, m, HammingCode(k, m), data))
    ensures |HammingCode(k, m)| >= k
    ensures forall e: Word :: |e| == k + m && CountOnes(e) <= 2 ==> ReadsBack(k, m, stored, data, e)
  {
    hide Encode, Decode, HammingCode, DecodedRight, ToNat, FromNat, CountOnes;
    HammingIsGood(k, m);
    FromNatToNat(Encode(Hamming, k, m, HammingCode(k, m), data));
    forall e: Word | |e| == k + m && CountOnes(e) <= 2
      ensures ReadsBack(k, m, stored, data, e)
    {
      SecdedTheorem(Hamming, k, m, HammingCode(k, m), data, e);
    }
  }

  /** The integrity code keeps the data in the low bits, whatever is cut off above. */
  lemma IntegrityKeepsData(k: nat, m: nat, data: Word, n: nat)
    requires Fits(k, m) && |data| == k && k <= n <= k + m
    ensures Encode(Hamming, k, m, HammingCode(k, m), data)[..n][..k] == data
  {
    HammingIsGood(k, m);
    GoodMatrixOk(Hamming, k, m, HammingCode(k, m));
    EncodeKeepsData(Hamming, k, m, HammingCode(k, m), data);
  }

  /** The 68 bits that are kept of the integrity code of a 64-bit word; the first 64 are the word. */
  function Protected(inVal: nat): Word
    requires |HammingCode(64, PARITY)| >= 64
  {
    Encode(Hamming, 64, PARITY, HammingCode(64, PARITY), FromNat(inVal, 64))[..68]
  }

  /** What a read of a stored word hit by `e` gives: the original 64 bits and their integrity bits
      after at most one flip, and a report of a double error exactly when there were two. */
  ghost predicate Recovers(inVal: nat, stored: nat, e: Word)
    requires |e| == 76 && |HammingCode(68, PARITY)| >= 68 && |HammingCode(64, PARITY)| >= 64
  {
    var d := Decode(Hamming, 68, PARITY, HammingCode(68, PARITY), XorWord(FromNat(stored, 76), e));
    && (CountOnes(e) <= 1 ==> d.data == Protected(inVal) && d.data[..64] == FromNat(inVal, 64))
    && (d.err1 <==> CountOnes(e) == 2)
  }

  /** The two layers together, for one word of the image. */
  method FlashWord(inVal: nat) returns (hex: string)
    requires inVal < Pow2(64)
    ensures |hex| == 19 && IsHex(hex)
    ensures |HammingCode(68, PARITY)| >= 68 && |HammingCode(64, PARITY)| >= 64
    ensures ParseHex(hex) == ToNat(Encode(Hamming, 68, PARITY, HammingCode(68, PARITY), Protected(inVal)))
    ensures forall e: Word :: |e| == 76 && CountOnes(e) <= 2 ==> Recovers(inVal, ParseHex(hex), e)
  {
    ShippedWidthsFit();
    hide Encode, HammingCode, ToNat, FromNat, ParseHex, Pow2, ReadsBack, Recovers;
    HammingIsGood(64, PARITY);
    var withIntegrity := AddIntgEcc(inVal);
    ghost var kept := Protected(inVal);
    IntegrityKeepsData(64, PARITY, FromNat(inVal, 64), 68);
    ToNatBound(kept);
    FromNatToNat(kept);
    hex := AddReliabilityEcc(ParseHex(withIntegrity));
    StoredWord(68, PARITY, ParseHex(hex), kept);
    forall e: Word | |e| == 76 && CountOnes(e) <= 2
      ensures Recovers(inVal, ParseHex(hex), e)
    {
      assert ReadsBack(68, PARITY, ParseHex(hex), kept, e);
      KeptRecovers(inVal, ParseHex(hex), e);
    }
  }

  lemma KeptRecovers(inVal: nat, stored: nat, e: Word)
    requires |HammingCode(68, PARITY)| >= 68 && |HammingCode(64, PARITY)| >= 64
    requires |Protected(inVal)| == 68 && Protected(inVal)[..64] == FromNat(inVal, 64)
    requires |e| == 76 && CountOnes(e) <= 2
    requires ReadsBack(68, PARITY, stored, Protected(inVal), e)
    ensures Recovers(inVal, stored, e)
  {
  }
}
