/** RfLinkRainMessage: the rain total and rain rate, both unsigned hexadecimal tenths. */
module RainMessage {
  import opened Common
  import opened JavaText
  import opened DataParser
  import opened Channels
  import opened RfLinkBase

  const KeyRain: string := "RAIN"
  const KeyRainRate: string := "RAINRATE"

  /** `keys()`. The family declares no thing type of its own. */
  const Keys: seq<string> := [KeyRain, KeyRainRate]

  /** The family's fields: `rain` (the total) and `rainRate`, in tenths. */
  datatype Reading = Reading(rain: int, rainRate: int)

  const Default: Reading := Reading(0, 0)

  /** The family part of `encodeMessage`: RAIN, then RAINRATE, each replacing its own field. */
  function Decode(values: map<string, string>, prev: Reading): (r: Result<Reading>)
    ensures r.Err? <==>
      || (KeyRain in values && ParseHexaToUnsignedTenths(values[KeyRain]).None?)
      || (KeyRainRate in values && ParseHexaToUnsignedTenths(values[KeyRainRate]).None?)
    ensures r.Err? ==> r.error == NumberFormat
    ensures KeyRain !in values && KeyRainRate !in values ==> r == Ok(prev)
  {
    var rain :- FieldValue(values, KeyRain, ParseHexaToUnsignedTenths, prev.rain);
    var rate :- FieldValue(values, KeyRainRate, ParseHexaToUnsignedTenths, prev.rainRate);
    Ok(Reading(rain, rate))
  }

  /** `getStates()`: exactly the rain total and the rain rate. */
  function States(r: Reading): (m: map<string, State>)
    ensures m.Keys == {RainTotalChannel, RainRateChannel}
  {
    map[RainTotalChannel := DecimalState(Tenths(r.rain)), RainRateChannel := DecimalState(Tenths(r.rainRate))]
  }

  /**
   * Round trip, and independence: RAIN alone sets the total and RAINRATE alone the rate; a
   * field that is absent keeps its reading.
   */
  lemma DecodeFormatted(rain: nat, values: map<string, string>, prev: Reading)
    requires rain <= IntMax
    requires KeyRain in values && values[KeyRain] == FormatHex(rain, 4)
    ensures KeyRainRate !in values ==> Decode(values, prev) == Ok(Reading(rain, prev.rainRate))
    ensures Decode(values, prev).Ok? ==> Decode(values, prev).value.rain == rain
    ensures Decode(values, prev).Ok? ==> States(Decode(values, prev).value)[RainTotalChannel] == DecimalState(rain as real / 10.0)
  {
    UnsignedRoundTrip(rain);
  }

  lemma DecodeRateFormatted(rate: nat, values: map<string, string>, prev: Reading)
    requires rate <= IntMax
    requires KeyRainRate in values && values[KeyRainRate] == FormatHex(rate, 4)
    ensures KeyRain !in values ==> Decode(values, prev) == Ok(Reading(prev.rain, rate))
    ensures Decode(values, prev).Ok? ==> Decode(values, prev).value.rainRate == rate
    ensures Decode(values, prev).Ok? ==> States(Decode(values, prev).value)[RainRateChannel] == DecimalState(rate as real / 10.0)
  {
    UnsignedRoundTrip(rate);
  }

  /**
   * What the two channels carry after a decode: the total from RAIN and the rate from RAINRATE,
   * each parsed value divided by ten; a field that is absent reports its previous reading.
   */
  lemma DecodedStates(values: map<string, string>, prev: Reading)
    requires Decode(values, prev).Ok?
    ensures var m := States(Decode(values, prev).value);
      && m[RainTotalChannel] == DecimalState(
           (if KeyRain in values then ParseHexaToUnsignedInt(values[KeyRain]).value else prev.rain) as real / 10.0)
      && m[RainRateChannel] == DecimalState(
           (if KeyRainRate in values then ParseHexaToUnsignedInt(values[KeyRainRate]).value else prev.rainRate) as real / 10.0)
  {
  }

  class RainMessage {
    const base: BaseMessage
    var rain: int
    var rainRate: int

    /** `new RfLinkRainMessage()`: nothing parsed, both readings 0. */
    constructor ()
      ensures fresh(base) && Current() == Default
      ensures base.rawMessage == None && base.values == map[]
      ensures base.seqNbr == 0 && base.deviceName == None && base.deviceId == None
    {
      base := new BaseMessage();
      rain := 0;
      rainRate := 0;
    }

    function Current(): Reading
      reads this
    {
      Reading(rain, rainRate)
    }

    /** `encodeMessage(data)`: the base parse, then RAIN and RAINRATE in that order. */
    method EncodeMessage(data: string) returns (outcome: Outcome)
      modifies this, base
      ensures base.Encoded(data)
      ensures var f := ParseFrameInto(data, old(base.values));
        && (f.Err? ==> outcome == Fail(f.error) && Current() == old(Current()))
        && (f.Ok? ==> var d := Decode(f.value.values, old(Current()));
              outcome == OutcomeOf(d) && (d.Ok? ==> Current() == d.value))
    {
      outcome := base.EncodeMessage(data);
      if outcome.Fail? {
        return;
      }
      if KeyRain in base.values {
        var v := ParseHexaToUnsignedTenths(base.values[KeyRain]);
        if v.None? {
          return Fail(NumberFormat);
        }
        rain := v.value;
      }
      if KeyRainRate in base.values {
        var v := ParseHexaToUnsignedTenths(base.values[KeyRainRate]);
        if v.None? {
          return Fail(NumberFormat);
        }
        rainRate := v.value;
      }
    }
  }
}
