/**
 * RfLinkWH1080WeatherStationMessage: the WH1080 weather station; temperature, humidity, rain,
 * wind and battery in one frame; transmission is refused.
 */
module WH1080WeatherStationMessage {
  import opened Common
  import opened JavaText
  import opened DataParser
  import opened Channels
  import opened RfLinkBase
  import opened OnOffCommands
  import TypeUtils

  const KeyTemperature: string := "TEMP"
  const KeyHumidity: string := "HUM"
  const KeyBattery: string := "BAT"
  const KeyRain: string := "RAIN"
  const KeyWindSpeed: string := "WINSP"
  const KeyWindDirection: string := "WINDIR"
  const KeyWindGust: string := "WINGS"

  /** `keys()`. */
  const Keys: seq<string> :=
    [KeyTemperature, KeyHumidity, KeyRain, KeyBattery, KeyWindSpeed, KeyWindDirection, KeyWindGust]

  /**
   * The family's fields: temperature and wind direction in tenths; humidity, rain, wind speed
   * and gust as the integers the station sends; the battery status.
   */
  datatype Reading = Reading(
    temperature: int, humidity: int, rain: int, windSpeed: int, windDirection: int, windGust: int,
    batteryStatus: Command)

  const Default: Reading := Reading(0, 0, 0, 0, 0, 0, Off)

  /** TEMP (signed tenths), HUM (decimal) and RAIN (raw hexadecimal), in that order. */
  function DecodeClimate(values: map<string, string>, prev: Reading): (r: Result<Reading>)
    ensures r.Err? <==>
      || (KeyTemperature in values && ParseHexaToSignedTenths(values[KeyTemperature]).None?)
      || (KeyHumidity in values && ParseToInt(values[KeyHumidity]).None?)
      || (KeyRain in values && ParseHexaToUnsignedInt(values[KeyRain]).None?)
    ensures r.Err? ==> r.error == NumberFormat
    ensures r.Ok? ==> r.value.batteryStatus == prev.batteryStatus
  {
    var temperature :- FieldValue(values, KeyTemperature, ParseHexaToSignedTenths, prev.temperature);
    var humidity :- FieldValue(values, KeyHumidity, ParseToInt, prev.humidity);
    var rain :- FieldValue(values, KeyRain, ParseHexaToUnsignedInt, prev.rain);
    Ok(prev.(temperature := temperature, humidity := humidity, rain := rain))
  }

  /** WINSP (raw hexadecimal), WINDIR (compass index) and WINGS (raw hexadecimal), in that order. */
  function DecodeWind(values: map<string, string>, prev: Reading): (r: Result<Reading>)
    ensures r.Err? <==>
      || (KeyWindSpeed in values && ParseHexaToUnsignedInt(values[KeyWindSpeed]).None?)
      || (KeyWindDirection in values && ParseIntTo360DirectionTenths(values[KeyWindDirection]).None?)
      || (KeyWindGust in values && ParseHexaToUnsignedInt(values[KeyWindGust]).None?)
    ensures r.Err? ==> r.error == NumberFormat
    ensures r.Ok? ==> r.value.temperature == prev.temperature && r.value.rain == prev.rain
  {
    var windSpeed :- FieldValue(values, KeyWindSpeed, ParseHexaToUnsignedInt, prev.windSpeed);
    var windDirection :- FieldValue(values, KeyWindDirection, ParseIntTo360DirectionTenths, prev.windDirection);
    var windGust :- FieldValue(values, KeyWindGust, ParseHexaToUnsignedInt, prev.windGust);
    Ok(prev.(windSpeed := windSpeed, windDirection := windDirection, windGust := windGust))
  }

  /**
   * The family part of `encodeMessage`: the climate fields, the wind fields, then BAT, whose
   * unknown texts are caught as UNKNOWN.
   */
  function Decode(values: map<string, string>, prev: Reading): (r: Result<Reading>)
    ensures r.Err? <==> DecodeClimate(values, prev).Err? || DecodeWind(values, prev).Err?
    ensures r.Err? ==> r.error == NumberFormat
  {
    var climate :- DecodeClimate(values, prev);
    var wind :- DecodeWind(values, climate);
    var battery := if KeyBattery in values then CommandOf(BatteryTexts, values[KeyBattery]) else prev.batteryStatus;
    Ok(wind.(batteryStatus := battery))
  }

  /**
   * Rain is the raw hexadecimal count, not tenths: `n` written in hex reports `n`, where the
   * rain family reports n/10.
   */
  lemma RainNotDivided(n: nat, values: map<string, string>, prev: Reading)
    requires n <= IntMax
    requires KeyRain in values && values[KeyRain] == FormatHex(n, 4)
    ensures Decode(values, prev).Ok? ==> Decode(values, prev).value.rain == n
    ensures Decode(values, prev).Ok? ==> States(Decode(values, prev).value)[RainTotalChannel] == DecimalState(n as real)
  {
    UnsignedRoundTrip(n);
  }

  /** The compass index `i` reports `i` times 22.5 degrees; a signed TEMP keeps its sign. */
  lemma DirectionAndTemperature(i: nat, t: int, values: map<string, string>, prev: Reading)
    requires i <= 15 && -0x7FFF <= t <= 0x7FFF
    requires KeyWindDirection in values && values[KeyWindDirection] == FormatDigits(i, 10)
    requires KeyTemperature in values && values[KeyTemperature] == EncodeSignedTenths(t)
    ensures Decode(values, prev).Ok? ==> Decode(values, prev).value.windDirection == i * 225
    ensures Decode(values, prev).Ok? ==> Decode(values, prev).value.temperature == t
  {
    DirectionRange(i);
    SignedTenthsRoundTrip(t);
  }

  /** Battery: OK means not low, LOW means low, any other text UNKNOWN; absent, it is kept. */
  lemma DecodeBattery(values: map<string, string>, prev: Reading)
    requires Decode(values, prev).Ok?
    ensures var r := Decode(values, prev).value;
      && (KeyBattery in values ==>
            && (r.batteryStatus == Off <==> EqualsIgnoreCase(values[KeyBattery], "OK"))
            && (r.batteryStatus == On <==> EqualsIgnoreCase(values[KeyBattery], "LOW")))
      && (KeyBattery !in values ==> r.batteryStatus == prev.batteryStatus)
  {
    if KeyBattery in values {
      BatteryCommandText(values[KeyBattery]);
    }
  }

  /** `getStates()`: the six measurements always, lowBattery unless the status is UNKNOWN. */
  function States(r: Reading): (m: map<string, State>)
    ensures {WindSpeedChannel, WindDirectionChannel, GustChannel, TemperatureChannel, HumidityChannel, RainTotalChannel} <= m.Keys
    ensures m.Keys <= {WindSpeedChannel, WindDirectionChannel, GustChannel, TemperatureChannel, HumidityChannel,
      RainTotalChannel, LowBatteryChannel}
    ensures LowBatteryChannel in m <==> r.batteryStatus != Unknown
    ensures LowBatteryChannel in m ==> m[LowBatteryChannel] == OnOffState(r.batteryStatus == On)
    ensures m[RainTotalChannel] == DecimalState(r.rain as real)
  {
    var always := map[
      WindSpeedChannel := DecimalState(r.windSpeed as real),
      WindDirectionChannel := DecimalState(Tenths(r.windDirection)),
      GustChannel := DecimalState(r.windGust as real),
      TemperatureChannel := DecimalState(Tenths(r.temperature)),
      HumidityChannel := DecimalState(r.humidity as real),
      RainTotalChannel := DecimalState(r.rain as real)];
    match OnOffOf(r.batteryStatus)
    case None => always
    case Some(low) => always[LowBatteryChannel := OnOffState(low)]
  }

  /**
   * What the six measurement channels carry after a decode: TEMP in signed tenths divided by
   * ten, the compass index of WINDIR times 22.5 degrees, and HUM, RAIN, WINSP and WINGS as the
   * integers sent; a field that is absent reports its previous reading.
   */
  lemma DecodedStates(values: map<string, string>, prev: Reading)
    requires Decode(values, prev).Ok?
    ensures var m := States(Decode(values, prev).value);
      && m[TemperatureChannel] == DecimalState((if KeyTemperature in values
           then SignMagnitude(ParseHexaToUnsignedInt(values[KeyTemperature]).value) else prev.temperature) as real / 10.0)
      && m[HumidityChannel] == DecimalState(
           (if KeyHumidity in values then ParseToInt(values[KeyHumidity]).value else prev.humidity) as real)
      && m[RainTotalChannel] == DecimalState(
           (if KeyRain in values then ParseHexaToUnsignedInt(values[KeyRain]).value else prev.rain) as real)
      && m[WindSpeedChannel] == DecimalState(
           (if KeyWindSpeed in values then ParseHexaToUnsignedInt(values[KeyWindSpeed]).value else prev.windSpeed) as real)
      && m[WindDirectionChannel] == DecimalState(if KeyWindDirection in values
           then ParseToInt(values[KeyWindDirection]).value as real * 22.5 else prev.windDirection as real / 10.0)
      && m[GustChannel] == DecimalState(
           (if KeyWindGust in values then ParseHexaToUnsignedInt(values[KeyWindGust]).value else prev.windGust) as real)
  {
  }

  class WH1080WeatherStationMessage {
    const base: BaseMessage
    var temperature: int
    var humidity: int
    var batteryStatus: Command
    var windSpeed: int
    var windDirection: int
    var windGust: int
    var rain: int

    /** `new RfLinkWH1080WeatherStationMessage()`: nothing parsed, the field defaults. */
    constructor ()
      ensures fresh(base) && Current() == Default
      ensures base.rawMessage == None && base.values == map[]
      ensures base.seqNbr == 0 && base.deviceName == None && base.deviceId == None
    {
      base := new BaseMessage();
      temperature := 0;
      humidity := 0;
      batteryStatus := Off;
      windSpeed := 0;
      windDirection := 0;
      windGust := 0;
      rain := 0;
    }

    function Current(): Reading
      reads this
    {
      Reading(temperature, humidity, rain, windSpeed, windDirection, windGust, batteryStatus)
    }

    /** `encodeMessage(data)`: the base parse, then the seven fields. */
    method EncodeMessage(data: string) returns (outcome: Outcome)
      modifies this, base
      ensures base.Encoded(data)
      ensures var f := ParseFrameInto(data, old(base.values));
        && (f.Err? ==> outcome == Fail(f.error) && Current() == old(Current()))
        && (f.Ok? ==> var d := Decode(f.value.values, old(Current()));
              outcome == OutcomeOf(d) && (d.Ok? ==> Current() == d.value))
    {
      outcome := base.EncodeMessage(data);
      if outcome.Fail? {
        return;
      }
      outcome := DecodeFields(base.values);
    }

    /** The family part of `encodeMessage`, on the field map the base parse left. */
    method DecodeFields(values: map<string, string>) returns (outcome: Outcome)
      modifies this
      ensures var d := Decode(values, old(Current()));
        outcome == OutcomeOf(d) && (d.Ok? ==> Current() == d.value)
    {
      outcome := DecodeClimateFields(values);
      if outcome.Fail? {
        return;
      }
      outcome := DecodeWindFields(values);
      if outcome.Fail? {
        return;
      }
      if KeyBattery in values {
        var c := FromString(BatteryTexts, values[KeyBattery]);
        batteryStatus := if c.None? then Unknown else c.value;
      }
    }

    method DecodeClimateFields(values: map<string, string>) returns (outcome: Outcome)
      modifies this
      ensures var d := DecodeClimate(values, old(Current()));
        outcome == OutcomeOf(d) && (d.Ok? ==> Current() == d.value)
    {
      if KeyTemperature in values {
        var v := ParseHexaToSignedTenths(values[KeyTemperature]);
        if v.None? {
          return Fail(NumberFormat);
        }
        temperature := v.value;
      }
      if KeyHumidity in values {
        var v := ParseToInt(values[KeyHumidity]);
        if v.None? {
          return Fail(NumberFormat);
        }
        humidity := v.value;
      }
      if KeyRain in values {
        var v := ParseHexaToUnsignedInt(values[KeyRain]);
        if v.None? {
          return Fail(NumberFormat);
        }
        rain := v.value;
      }
      return Pass;
    }

    method DecodeWindFields(values: map<string, string>) returns (outcome: Outcome)
      modifies this
      ensures var d := DecodeWind(values, old(Current()));
        outcome == OutcomeOf(d) && (d.Ok? ==> Current() == d.value)
    {
      if KeyWindSpeed in values {
        var v := ParseHexaToUnsignedInt(values[KeyWindSpeed]);
        if v.None? {
          return Fail(NumberFormat);
        }
        windSpeed := v.value;
      }
      if KeyWindDirection in values {
        var v := ParseIntTo360DirectionTenths(values[KeyWindDirection]);
        if v.None? {
          return Fail(NumberFormat);
        }
        windDirection := v.value;
      }
      if KeyWindGust in values {
        var v := ParseHexaToUnsignedInt(values[KeyWindGust]);
        if v.None? {
          return Fail(NumberFormat);
        }
        windGust := v.value;
      }
      return Pass;
    }

    /** `initializeFromChannel`: whatever the channel and command, transmission is refused. */
    method InitializeFromChannel(channel: string, command: TypeUtils.Type) returns (outcome: Outcome)
      ensures outcome == Fail(NotImp)
    {
      return Fail(NotImp);
    }
  }
}
