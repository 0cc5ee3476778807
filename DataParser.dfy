/**
 * RfLinkDataParser: the numeric field decoders. Every decoder yields None where
 * Integer.parseInt throws; results Java divides by 10 (or multiplies by 22.5) are kept
 * exactly, as integer tenths.
 */
module DataParser {
  import opened Common
  import opened JavaText

  const BaseTen: nat := 10
  const BaseHexa: nat := 16

  /** `parseToInt`: a decimal field. */
  function ParseToInt(value: string): Option<int>
  {
    ParseInt(value, BaseTen)
  }

  /** `parseHexaToUnsignedInt`: a hexadecimal field. */
  function ParseHexaToUnsignedInt(value: string): Option<int>
  {
    ParseInt(value, BaseHexa)
  }

  /** `(v & 0x8000) > 0` on the 32-bit two's complement value of `v`. */
  predicate SignBitSet(v: int)
  {
    v % 0x1_0000 >= 0x8000
  }

  /** `v & 0x7FFF` on the 32-bit two's complement value of `v`. */
  function Low15(v: int): (r: int)
    ensures 0 <= r < 0x8000
  {
    v % 0x8000
  }

  /**
   * The 16-bit sign-magnitude reading of a parsed value: bit 15 is the sign, the low
   * 15 bits the magnitude; every higher bit is ignored.
   */
  function SignMagnitude(v: int): (r: int)
    ensures -0x7FFF <= r <= 0x7FFF
    ensures r == Low15(v) || r == -Low15(v)
    ensures r < 0 ==> SignBitSet(v)
    ensures !SignBitSet(v) ==> r == Low15(v)
  {
    if SignBitSet(v) then (v % 0x8000) / -1 else v % 0x8000
  }

  /** `parseHexaToSignedInt`. */
  function ParseHexaToSignedInt(value: string): (r: Option<int>)
    ensures r.Some? <==> ParseHexaToUnsignedInt(value).Some?
    ensures r.Some? ==> -0x7FFF <= r.value <= 0x7FFF
  {
    match ParseHexaToUnsignedInt(value)
    case None => None
    case Some(v) => Some(SignMagnitude(v))
  }

  /** `parseHexaToSignedDecimal`, in tenths: the signed value itself is the number of tenths. */
  function ParseHexaToSignedTenths(value: string): Option<int>
  {
    ParseHexaToSignedInt(value)
  }

  /** `parseHexaToUnsignedDecimal`, in tenths. */
  function ParseHexaToUnsignedTenths(value: string): Option<int>
  {
    ParseHexaToUnsignedInt(value)
  }

  /** One step of the compass, 22.5 degrees, in tenths of a degree. */
  const DirectionStepTenths: int := 225

  /** `parseIntTo360Direction`, in tenths of a degree: the decimal index times 22.5 degrees. */
  function ParseIntTo360DirectionTenths(value: string): (r: Option<int>)
    ensures r.Some? <==> ParseToInt(value).Some?
    ensures r.Some? ==> r.value == ParseToInt(value).value * DirectionStepTenths
  {
    match ParseToInt(value)
    case None => None
    case Some(i) => Some(i * DirectionStepTenths)
  }

  /** The compass index 0..15 covers 0 to 337.5 degrees in 22.5-degree steps. */
  lemma DirectionRange(i: nat)
    requires i <= 15
    ensures ParseIntTo360DirectionTenths(FormatDigits(i, 10)) == Some(i * 225)
    ensures 0 <= i * 225 <= 3375
  {
    ParseFormatDecimal(i);
  }

  /** How a sensor writes a temperature in tenths: sign in bit 15, magnitude below it, four hex digits. */
  function EncodeSignedTenths(t: int): (s: string)
    requires -0x7FFF <= t <= 0x7FFF
    ensures |s| == 4
  {
    var raw := if t < 0 then 0x8000 - t else t;
    FormatDigitsBound(raw);
    FormatHex(raw, 4)
  }

  lemma FormatDigitsBound(n: nat)
    requires n < 0x1_0000
    ensures |FormatDigits(n, 16)| <= 4
  {
    DigitsLength(n, 4);
  }

  function Power16(k: nat): nat
  {
    if k == 0 then 1 else 16 * Power16(k - 1)
  }

  lemma {:induction false} DigitsLength(n: nat, k: nat)
    requires k >= 1 && n < Power16(k)
    ensures |FormatDigits(n, 16)| <= k
  {
    if n >= 16 {
      DigitsLength(n / 16, k - 1);
    }
  }

  /** Round trip: the signed decoder reads back every temperature in range, the sign included. */
  lemma SignedTenthsRoundTrip(t: int)
    requires -0x7FFF <= t <= 0x7FFF
    ensures ParseHexaToSignedTenths(EncodeSignedTenths(t)) == Some(t)
  {
    var raw := if t < 0 then 0x8000 - t else t;
    ParseFormatHex(raw, 4);
    if t < 0 {
      assert raw % 0x1_0000 == raw;
      assert raw % 0x8000 == -t;
    }
  }

  /** Round trip for the unsigned decoders. */
  lemma UnsignedRoundTrip(n: nat)
    requires n <= IntMax
    ensures ParseHexaToUnsignedInt(FormatHex(n, 4)) == Some(n)
    ensures ParseHexaToUnsignedTenths(FormatHex(n, 4)) == Some(n)
  {
    ParseFormatHex(n, 4);
  }

  /** `"00C0"` is 19.2 degrees. */
  lemma PositiveExample()
    ensures ParseHexaToSignedTenths("00C0") == Some(192)
  {
    assert DigitsValue("00C0", 16) == 192 by {
      assert "00C0"[..3] == "00C" && "00C"[..2] == "00" && "00"[..1] == "0";
    }
  }

  /** `"80C0"` is -19.2 degrees: the sign bit, then the magnitude 0xC0. */
  lemma NegativeExample()
    ensures ParseHexaToSignedTenths("80C0") == Some(-192)
  {
    assert DigitsValue("80C0", 16) == 0x80C0 by {
      assert "80C0"[..3] == "80C" && "80C"[..2] == "80" && "80"[..1] == "8";
    }
  }

  /** `"8000"` is the negative zero of sign-magnitude, read as 0. */
  lemma NegativeZero()
    ensures ParseHexaToSignedInt("8000") == Some(0)
  {
    assert DigitsValue("8000", 16) == 0x8000 by {
      assert "8000"[..3] == "800" && "800"[..2] == "80" && "80"[..1] == "8";
    }
  }

  /** Digits only (no sign): every successful parse is non-negative, in both radices. */
  lemma UnsignedNonNegative(value: string)
    requires |value| > 0 && AllDigits(value, 10)
    ensures ParseToInt(value).Some? ==> ParseToInt(value).value >= 0
    ensures ParseHexaToUnsignedInt(value).Some? ==> ParseHexaToUnsignedInt(value).value >= 0
  {
    ParseDigitsNonNegative(value, 10);
    assert AllDigits(value, 16);
    ParseDigitsNonNegative(value, 16);
  }
}
