/** The DS8K LUN codec: logical unit numbers of 256 and more travel as hexadecimal text with
    their two 16-bit halves swapped (SAM-5, section 4.7), smaller ones as two hex digits. */
module LunCodec {
  import opened Options
  import opened Text

  // ---------- bit operations on unbounded naturals, defined bit by bit ----------

  function Pow2(k: nat): (p: nat)
    ensures p >= 1
  {
    if k == 0 then 1 else 2 * Pow2(k - 1)
  }

  function BitAnd(a: nat, b: nat): nat {
    if a == 0 && b == 0 then 0
    else 2 * BitAnd(a / 2, b / 2) + (if a % 2 == 1 && b % 2 == 1 then 1 else 0)
  }

  function BitOr(a: nat, b: nat): nat {
    if a == 0 && b == 0 then 0
    else 2 * BitOr(a / 2, b / 2) + (if a % 2 == 1 || b % 2 == 1 then 1 else 0)
  }

  function ShiftRight(a: nat, k: nat): nat
    decreases a, k
  {
    if k == 0 then a else ShiftRight(a / 2, k - 1)
  }

  function ShiftLeft(a: nat, k: nat): nat
    decreases a, k
  {
    if k == 0 then a else 2 * ShiftLeft(a, k - 1)
  }

  /** Masking with k one-bits keeps the remainder, and dropping k bits keeps the quotient. */
  lemma {:induction false} MaskAndShift(a: nat, k: nat)
    ensures a == Pow2(k) * ShiftRight(a, k) + BitAnd(a, Pow2(k) - 1)
    ensures BitAnd(a, Pow2(k) - 1) < Pow2(k)
    decreases k
  {
    if k == 0 {
      AndZero(a);
    } else {
      MaskAndShift(a / 2, k - 1);
      MaskStep(a, Pow2(k - 1));
      DoubleProduct(Pow2(k - 1), ShiftRight(a, k));
    }
  }

  lemma DoubleProduct(p: nat, q: nat)
    ensures 2 * p * q == 2 * (p * q)
  {
  }

  lemma MaskStep(a: nat, p: nat)
    requires p >= 1
    ensures BitAnd(a, 2 * p - 1) == 2 * BitAnd(a / 2, p - 1) + a % 2
  {
    assert (2 * p - 1) / 2 == p - 1 && (2 * p - 1) % 2 == 1;
  }

  lemma {:induction false} AndZero(a: nat)
    ensures BitAnd(a, 0) == 0
  {
    if a != 0 {
      AndZero(a / 2);
    }
  }

  lemma {:induction false} OrZero(b: nat)
    ensures BitOr(0, b) == b
  {
    if b != 0 {
      OrZero(b / 2);
    }
  }

  /** Or-ing a value below 2^k with one shifted left by k adds them. */
  lemma {:induction false} OrOfDisjoint(a: nat, b: nat, k: nat)
    requires a < Pow2(k)
    ensures BitOr(a, ShiftLeft(b, k)) == a + Pow2(k) * b
  {
    ShiftLeftMultiplies(b, k);
    if k == 0 {
      OrZero(b);
    } else {
      OrOfDisjoint(a / 2, b, k - 1);
      ShiftLeftMultiplies(b, k - 1);
      Halves(b, k);
    }
  }

  lemma Halves(b: nat, k: nat)
    requires k > 0
    ensures Pow2(k) * b / 2 == Pow2(k - 1) * b && Pow2(k) * b % 2 == 0
  {
    assert Pow2(k) * b == 2 * (Pow2(k - 1) * b);
  }

  lemma {:induction false} ShiftLeftMultiplies(b: nat, k: nat)
    ensures ShiftLeft(b, k) == Pow2(k) * b
    decreases k
  {
    if k > 0 {
      ShiftLeftMultiplies(b, k - 1);
    }
  }

  lemma Pow2Sixteen()
    ensures Pow2(16) == 0x1_0000
  {
    assert Pow2(4) == 16;
    assert Pow2(8) == 256;
    assert Pow2(12) == 4096;
  }

  // ---------- the codec ----------

  /** Exchanges the two low 16-bit halves and drops everything above bit 31. */
  function SwapHalves(x: nat): nat {
    BitOr(BitAnd(ShiftRight(x, 16), 0xFFFF), ShiftLeft(BitAnd(x, 0xFFFF), 16))
  }

  function HexOfAtLeastTwoDigits(n: nat): string {
    if n < 16 then "0" + Numeral(n, 16) else Numeral(n, 16)
  }

  function IntToScsiLun(lun: nat): string {
    if lun < 256 then HexOfAtLeastTwoDigits(lun) else Numeral(SwapHalves(lun), 16)
  }

  /** None stands for the ValueError that text which is not hexadecimal raises. */
  function ScsiLunToInt(text: string): Option<nat> {
    if !IsNumeral(text, 16) then None
    else
      var raw := ParseNumeral(text, 16);
      Some(if raw < 256 then raw else SwapHalves(raw))
  }

  /** The same exchange with division and remainder. */
  function SwapByDivision(x: nat): nat {
    x / 0x1_0000 % 0x1_0000 + 0x1_0000 * (x % 0x1_0000)
  }

  lemma SixteenBits(x: nat)
    ensures ShiftRight(x, 16) == x / 0x1_0000
    ensures BitAnd(x, 0xFFFF) == x % 0x1_0000
  {
    Pow2Sixteen();
    MaskAndShift(x, 16);
  }

  lemma SwapHalvesByDivision(x: nat)
    ensures SwapHalves(x) == SwapByDivision(x)
  {
    var high := ShiftRight(x, 16);
    SixteenBits(x);
    SixteenBits(high);
    Pow2Sixteen();
    OrOfDisjoint(BitAnd(high, 0xFFFF), BitAnd(x, 0xFFFF), 16);
  }

  /** Swapping twice keeps the low 32 bits and loses the rest. */
  lemma SwapTwice(x: nat)
    ensures SwapByDivision(SwapByDivision(x)) == x % 0x1_0000_0000
  {
    var high, low := x / 0x1_0000 % 0x1_0000, x % 0x1_0000;
    assert (high + 0x1_0000 * low) % 0x1_0000 == high;
    assert (high + 0x1_0000 * low) / 0x1_0000 == low;
  }

  /** A multiple of 2^16 up to 255 * 2^16: its swapped form is below 256, where the decoder
      takes the text at face value. */
  predicate LosesItsHighHalf(lun: nat) {
    exists k :: 1 <= k <= 255 && lun == k * 0x1_0000
  }

  /** Reading a printed numeral, with or without a padding zero. */
  lemma DecodeNumeral(n: nat)
    ensures ScsiLunToInt(Numeral(n, 16)) == Some(if n < 256 then n else SwapByDivision(n))
    ensures ScsiLunToInt("0" + Numeral(n, 16)) == ScsiLunToInt(Numeral(n, 16))
  {
    ParseOfNumeral(n, 16);
    ParseLeadingZero(Numeral(n, 16), 16);
    SwapHalvesByDivision(n);
  }

  lemma EncodeSmall(lun: nat)
    requires lun < 256
    ensures IntToScsiLun(lun) == Numeral(lun, 16) || IntToScsiLun(lun) == "0" + Numeral(lun, 16)
  {
  }

  lemma EncodeLarge(lun: nat)
    requires lun >= 256
    ensures IntToScsiLun(lun) == Numeral(SwapByDivision(lun), 16)
  {
    SwapHalvesByDivision(lun);
  }

  /** What comes back, by arithmetic alone. */
  function Reread(lun: nat): nat {
    if lun < 256 then lun
    else
      var swapped := SwapByDivision(lun);
      if swapped < 256 then swapped else SwapByDivision(swapped)
  }

  lemma DecodeOfEncode(lun: nat)
    ensures ScsiLunToInt(IntToScsiLun(lun)) == Some(Reread(lun))
  {
    if lun < 256 {
      EncodeSmall(lun);
      DecodeNumeral(lun);
    } else {
      EncodeLarge(lun);
      DecodeNumeral(SwapByDivision(lun));
    }
  }

  lemma RereadIsSame(lun: nat)
    ensures Reread(lun) == lun <==> lun < 0x1_0000_0000 && !LosesItsHighHalf(lun)
  {
    if lun >= 256 {
      SwapTwice(lun);
      SmallSwap(lun);
    } else {
      assert !LosesItsHighHalf(lun);
    }
  }

  /** The exact domain of the codec: every number below 2^32 except those 255. */
  lemma RoundTripDomain(lun: nat)
    ensures ScsiLunToInt(IntToScsiLun(lun)) == Some(lun)
            <==> lun < 0x1_0000_0000 && !LosesItsHighHalf(lun)
  {
    DecodeOfEncode(lun);
    RereadIsSame(lun);
  }

  lemma SmallSwap(lun: nat)
    requires lun >= 256
    ensures SwapByDivision(lun) < 256 ==> SwapByDivision(lun) != lun
    ensures lun < 0x1_0000_0000 ==> (SwapByDivision(lun) < 256 <==> LosesItsHighHalf(lun))
  {
    if SwapByDivision(lun) < 256 && lun < 0x1_0000_0000 {
      assert lun == lun / 0x1_0000 * 0x1_0000;
    }
  }

  /** How the 255 exceptions fail: k * 2^16 is read back as k. */
  lemma LostHighHalfReadsAs(k: nat)
    requires 1 <= k <= 255
    ensures ScsiLunToInt(IntToScsiLun(k * 0x1_0000)) == Some(k)
  {
    RereadOfLost(k * 0x1_0000, k);
    DecodeOfEncode(k * 0x1_0000);
  }

  lemma RereadOfLost(lun: nat, k: nat)
    requires 1 <= k <= 255 && lun == k * 0x1_0000
    ensures Reread(lun) == k
  {
    assert lun / 0x1_0000 == k && lun % 0x1_0000 == 0;
  }

  // ---------- the text itself ----------

  /** A number below 256 is written as two hexadecimal digits, in lower case. */
  lemma SmallIsTwoDigits(lun: nat)
    requires lun < 256
    ensures IntToScsiLun(lun) == ["0123456789abcdef"[lun / 16], "0123456789abcdef"[lun % 16]]
  {
    if lun >= 16 {
      assert Numeral(lun, 16) == Numeral(lun / 16, 16) + [DIGITS[lun % 16]];
      assert Numeral(lun / 16, 16) == [DIGITS[lun / 16]];
    }
  }

  /** Any other is written as the numeral of its exchanged halves, without padding. */
  lemma LargeIsNumeralOfSwapped(lun: nat)
    requires lun >= 256
    ensures IsNumeral(IntToScsiLun(lun), 16)
    ensures ParseNumeral(IntToScsiLun(lun), 16) == lun / 65536 % 65536 + 65536 * (lun % 65536)
    ensures IntToScsiLun(lun)[0] == '0' ==> IntToScsiLun(lun) == "0"
  {
    EncodeLarge(lun);
    ParseOfNumeral(SwapByDivision(lun), 16);
    NoLeadingZero(SwapByDivision(lun));
  }

  lemma {:induction false} NoLeadingZero(n: nat)
    ensures Numeral(n, 16)[0] == '0' ==> n == 0
    decreases n
  {
    if n >= 16 {
      NoLeadingZero(n / 16);
    }
  }
}
