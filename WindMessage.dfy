/**
 * RfLinkWindMessage: wind speed, average speed, direction, gust and chill. WINDIR and WINCHL
 * go through RfLinkDataParser's `parseWindDirection` and `parseTemperature`, which are not part
 * of this model and are given as parameters.
 */
module WindMessage {
  import opened Common
  import opened JavaText
  import opened DataParser
  import opened RfLinkBase

  const KeyWindSpeed: string := "WINSP"
  const KeyAverageWindSpeed: string := "AWINSP"
  const KeyWindDirection: string := "WINDIR"
  const KeyWDirection: string := "WDIR"
  const KeyWindGust: string := "WINGS"
  const KeyWindChill: string := "WINCHL"

  /** `keys()`. The family declares neither a thing type nor channel states of its own. */
  const Keys: seq<string> :=
    [KeyWindSpeed, KeyAverageWindSpeed, KeyWindDirection, KeyWDirection, KeyWindGust, KeyWindChill]

  /** The two external decoders; None stands for the exception they throw on a bad field. */
  datatype Parsers = Parsers(windDirection: string -> Option<real>, temperature: string -> Option<real>)

  /**
   * The family's fields: wind speed and gust as raw integers, the average speed in tenths,
   * direction and chill as the external decoders give them.
   */
  datatype Reading = Reading(
    windSpeed: int, averageWindSpeed: int, windDirection: real, windGust: int, windChill: real)

  const Default: Reading := Reading(0, 0, 0.0, 0, 0.0)

  /** A raw hexadecimal direction in degrees, as WDIR carries it. */
  function ParseDegrees(text: string): Option<real>
  {
    match ParseHexaToUnsignedInt(text)
    case None => None
    case Some(v) => Some(v as real)
  }

  /** WINSP, AWINSP and WINDIR, in that order. */
  function DecodeFirst(values: map<string, string>, prev: Reading, parsers: Parsers): (r: Result<Reading>)
    ensures r.Err? <==>
      || (KeyWindSpeed in values && ParseHexaToUnsignedInt(values[KeyWindSpeed]).None?)
      || (KeyAverageWindSpeed in values && ParseHexaToUnsignedTenths(values[KeyAverageWindSpeed]).None?)
      || (KeyWindDirection in values && parsers.windDirection(values[KeyWindDirection]).None?)
    ensures r.Err? ==> r.error == NumberFormat
  {
    var windSpeed :- FieldValue(values, KeyWindSpeed, ParseHexaToUnsignedInt, prev.windSpeed);
    var average :- FieldValue(values, KeyAverageWindSpeed, ParseHexaToUnsignedTenths, prev.averageWindSpeed);
    var direction :- FieldValue(values, KeyWindDirection, parsers.windDirection, prev.windDirection);
    Ok(prev.(windSpeed := windSpeed, averageWindSpeed := average, windDirection := direction))
  }

  /** WDIR, WINGS and WINCHL, in that order. */
  function DecodeSecond(values: map<string, string>, prev: Reading, parsers: Parsers): (r: Result<Reading>)
    ensures r.Err? <==>
      || (KeyWDirection in values && ParseHexaToUnsignedInt(values[KeyWDirection]).None?)
      || (KeyWindGust in values && ParseHexaToUnsignedInt(values[KeyWindGust]).None?)
      || (KeyWindChill in values && parsers.temperature(values[KeyWindChill]).None?)
    ensures r.Err? ==> r.error == NumberFormat
  {
    var direction :- FieldValue(values, KeyWDirection, ParseDegrees, prev.windDirection);
    var gust :- FieldValue(values, KeyWindGust, ParseHexaToUnsignedInt, prev.windGust);
    var chill :- FieldValue(values, KeyWindChill, parsers.temperature, prev.windChill);
    Ok(prev.(windDirection := direction, windGust := gust, windChill := chill))
  }

  /** The family part of `encodeMessage`: the six fields in the order the source reads them. */
  function Decode(values: map<string, string>, prev: Reading, parsers: Parsers): (r: Result<Reading>)
    ensures r.Err? <==> DecodeFirst(values, prev, parsers).Err? || DecodeSecond(values, prev, parsers).Err?
    ensures r.Err? ==> r.error == NumberFormat
  {
    var first :- DecodeFirst(values, prev, parsers);
    DecodeSecond(values, first, parsers)
  }

  /**
   * WDIR, read after WINDIR, decides the direction whenever it is present; WINDIR decides it
   * only without WDIR; with neither, the direction is kept.
   */
  lemma DirectionPrecedence(values: map<string, string>, prev: Reading, parsers: Parsers)
    requires Decode(values, prev, parsers).Ok?
    ensures var d := Decode(values, prev, parsers).value.windDirection;
      && (KeyWDirection in values ==> d == ParseHexaToUnsignedInt(values[KeyWDirection]).value as real)
      && (KeyWDirection !in values && KeyWindDirection in values ==>
            d == parsers.windDirection(values[KeyWindDirection]).value)
      && (KeyWDirection !in values && KeyWindDirection !in values ==> d == prev.windDirection)
  {
  }

  /** Although WDIR overrides it, a WINDIR the external decoder rejects still fails the decode. */
  lemma OverriddenDirectionStillChecked(values: map<string, string>, prev: Reading, parsers: Parsers)
    requires KeyWDirection in values && KeyWindDirection in values
    requires parsers.windDirection(values[KeyWindDirection]).None?
    ensures Decode(values, prev, parsers) == Err(NumberFormat)
  {
  }

  /** Speeds: raw hex for WINSP and WINGS, tenths for AWINSP; absent keys keep their readings. */
  lemma DecodeSpeeds(speed: nat, average: nat, values: map<string, string>, prev: Reading, parsers: Parsers)
    requires speed <= IntMax && average <= IntMax
    requires KeyWindSpeed in values && values[KeyWindSpeed] == FormatHex(speed, 4)
    requires KeyAverageWindSpeed in values && values[KeyAverageWindSpeed] == FormatHex(average, 4)
    requires KeyWindGust !in values
    ensures Decode(values, prev, parsers).Ok? ==>
      && Decode(values, prev, parsers).value.windSpeed == speed
      && Decode(values, prev, parsers).value.averageWindSpeed == average
      && Decode(values, prev, parsers).value.windGust == prev.windGust
  {
    UnsignedRoundTrip(speed);
    UnsignedRoundTrip(average);
    var first := DecodeFirst(values, prev, parsers);
    if first.Ok? {
      assert first.value.windSpeed == speed && first.value.averageWindSpeed == average;
      assert first.value.windGust == prev.windGust;
      assert Decode(values, prev, parsers) == DecodeSecond(values, first.value, parsers);
    }
  }

  class WindMessage {
    const base: BaseMessage
    const parsers: Parsers
    var windSpeed: int
    var averageWindSpeed: int
    var windDirection: real
    var windGust: int
    var windChill: real

    /** `new RfLinkWindMessage()`: nothing parsed, all readings 0. */
    constructor (parsers: Parsers)
      ensures fresh(base) && Current() == Default && this.parsers == parsers
      ensures base.rawMessage == None && base.values == map[]
      ensures base.seqNbr == 0 && base.deviceName == None && base.deviceId == None
    {
      base := new BaseMessage();
      this.parsers := parsers;
      windSpeed := 0;
      averageWindSpeed := 0;
      windDirection := 0.0;
      windGust := 0;
      windChill := 0.0;
    }

    function Current(): Reading
      reads this
    {
      Reading(windSpeed, averageWindSpeed, windDirection, windGust, windChill)
    }

    /** `encodeMessage(data)`: the base parse, then the six fields. */
    method EncodeMessage(data: string) returns (outcome: Outcome)
      modifies this, base
      ensures base.Encoded(data)
      ensures var f := ParseFrameInto(data, old(base.values));
        && (f.Err? ==> outcome == Fail(f.error) && Current() == old(Current()))
        && (f.Ok? ==> var d := Decode(f.value.values, old(Current()), parsers);
              outcome == OutcomeOf(d) && (d.Ok? ==> Current() == d.value))
    {
      outcome := base.EncodeMessage(data);
      if outcome.Fail? {
        return;
      }
      outcome := DecodeFirstFields(base.values);
      if outcome.Fail? {
        return;
      }
      outcome := DecodeSecondFields(base.values);
    }

    method DecodeFirstFields(values: map<string, string>) returns (outcome: Outcome)
      modifies this
      ensures var d := DecodeFirst(values, old(Current()), parsers);
        outcome == OutcomeOf(d) && (d.Ok? ==> Current() == d.value)
    {
      if KeyWindSpeed in values {
        var v := ParseHexaToUnsignedInt(values[KeyWindSpeed]);
        if v.None? {
          return Fail(NumberFormat);
        }
        windSpeed := v.value;
      }
      if KeyAverageWindSpeed in values {
        var v := ParseHexaToUnsignedTenths(values[KeyAverageWindSpeed]);
        if v.None? {
          return Fail(NumberFormat);
        }
        averageWindSpeed := v.value;
      }
      if KeyWindDirection in values {
        var v := parsers.windDirection(values[KeyWindDirection]);
        if v.None? {
          return Fail(NumberFormat);
        }
        windDirection := v.value;
      }
      return Pass;
    }

    method DecodeSecondFields(values: map<string, string>) returns (outcome: Outcome)
      modifies this
      ensures var d := DecodeSecond(values, old(Current()), parsers);
        outcome == OutcomeOf(d) && (d.Ok? ==> Current() == d.value)
    {
      if KeyWDirection in values {
        var v := ParseHexaToUnsignedInt(values[KeyWDirection]);
        if v.None? {
          return Fail(NumberFormat);
        }
        windDirection := v.value as real;
      }
      if KeyWindGust in values {
        var v := ParseHexaToUnsignedInt(values[KeyWindGust]);
        if v.None? {
          return Fail(NumberFormat);
        }
        windGust := v.value;
      }
      if KeyWindChill in values {
        var v := parsers.temperature(values[KeyWindChill]);
        if v.None? {
          return Fail(NumberFormat);
        }
        windChill := v.value;
      }
      return Pass;
    }
  }
}
