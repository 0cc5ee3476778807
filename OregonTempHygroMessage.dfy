/**
 * RfLinkOregonTempHygroMessage: Oregon temperature/humidity sensors; a sign-magnitude TEMP,
 * a decimal HUM, a comfort HSTATUS and a battery BAT; transmission is refused.
 */
module OregonTempHygroMessage {
  import opened Common
  import opened JavaText
  import opened DataParser
  import opened Channels
  import opened RfLinkBase
  import opened OnOffCommands
  import TypeUtils

  const KeyTemperature: string := "TEMP"
  const KeyHumidity: string := "HUM"
  const KeyHumidityStatus: string := "HSTATUS"
  const KeyLowBattery: string := "BAT"

  /** `keys()`. */
  const Keys: seq<string> := [KeyTemperature, KeyHumidity, KeyHumidityStatus, KeyLowBattery]

  /** The family's fields: temperature in tenths, humidity, humidity status, battery status. */
  datatype Reading = Reading(temperature: int, humidity: int, humidityStatus: string, batteryStatus: Command)

  const Default: Reading := Reading(0, 0, "UNKNOWN", Off)

  /**
   * The TEMP value in tenths: with bit 15 set, minus the low 15 bits; otherwise the parsed
   * value itself, higher bits included.
   */
  function TemperatureTenths(v: int): int
  {
    if SignBitSet(v) then -Low15(v) else v
  }

  /** On four hex digits this is the sign-magnitude decoder of RfLinkDataParser. */
  lemma TemperatureIsSignMagnitude(v: int)
    requires 0 <= v < 0x1_0000
    ensures TemperatureTenths(v) == SignMagnitude(v)
  {
  }

  /** Above 16 bits the two part ways: the Oregon decoder keeps the high bits, the shared one drops them. */
  lemma HighBitsKept()
    ensures TemperatureTenths(0x1_0000) == 0x1_0000 && SignMagnitude(0x1_0000) == 0
  {
  }

  function ParseTemperature(text: string): Option<int>
  {
    match ParseHexaToUnsignedInt(text)
    case None => None
    case Some(v) => Some(TemperatureTenths(v))
  }

  /** The HSTATUS codes: 0 NORMAL, 1 COMFORT, 2 DRY, 3 WET, anything else UNKNOWN. */
  function HumidityStatusName(code: int): (name: string)
    ensures name == "UNKNOWN" <==> !(0 <= code <= 3)
  {
    if code == 0 then "NORMAL"
    else if code == 1 then "COMFORT"
    else if code == 2 then "DRY"
    else if code == 3 then "WET"
    else "UNKNOWN"
  }

  /** The four known codes name four different statuses. */
  lemma HumidityStatusInjective(a: int, b: int)
    requires 0 <= a <= 3 && 0 <= b <= 3 && a != b
    ensures HumidityStatusName(a) != HumidityStatusName(b)
  {
  }

  function ParseHumidityStatus(text: string): Option<string>
  {
    match ParseToInt(text)
    case None => None
    case Some(code) => Some(HumidityStatusName(code))
  }

  /**
   * The family part of `encodeMessage`: TEMP, HUM, HSTATUS and BAT in that order. A TEMP, HUM
   * or HSTATUS that does not parse fails the decode; a BAT that matches no text is caught as
   * UNKNOWN.
   */
  function Decode(values: map<string, string>, prev: Reading): (r: Result<Reading>)
    ensures r.Err? <==>
      || (KeyTemperature in values && ParseHexaToUnsignedInt(values[KeyTemperature]).None?)
      || (KeyHumidity in values && ParseToInt(values[KeyHumidity]).None?)
      || (KeyHumidityStatus in values && ParseToInt(values[KeyHumidityStatus]).None?)
    ensures r.Err? ==> r.error == NumberFormat
  {
    var temperature :- FieldValue(values, KeyTemperature, ParseTemperature, prev.temperature);
    var humidity :- FieldValue(values, KeyHumidity, ParseToInt, prev.humidity);
    var status :- FieldValue(values, KeyHumidityStatus, ParseHumidityStatus, prev.humidityStatus);
    var battery := if KeyLowBattery in values then CommandOf(BatteryTexts, values[KeyLowBattery]) else prev.batteryStatus;
    Ok(Reading(temperature, humidity, status, battery))
  }

  /** Round trip: a temperature the sensor encodes in sign-magnitude decodes back, sign included. */
  lemma DecodeTemperature(t: int, values: map<string, string>, prev: Reading)
    requires -0x7FFF <= t <= 0x7FFF
    requires KeyTemperature in values && values[KeyTemperature] == EncodeSignedTenths(t)
    ensures Decode(values, prev).Ok? ==> Decode(values, prev).value.temperature == t
    ensures Decode(values, prev).Ok? ==> States(Decode(values, prev).value)[TemperatureChannel] == DecimalState(t as real / 10.0)
  {
    SignedTenthsRoundTrip(t);
    ParseFormatHex(if t < 0 then 0x8000 - t else t, 4);
  }

  /** `"80C0"` is -19.2 degrees here, where the plain temperature family reads 3296.0. */
  lemma NegativeExample()
    ensures Decode(map[KeyTemperature := "80C0"], Default) == Ok(Default.(temperature := -192))
  {
    assert DigitsValue("80C0", 16) == 0x80C0 by {
      assert "80C0"[..3] == "80C" && "80C"[..2] == "80" && "80"[..1] == "8";
    }
  }

  /** Status and battery: the code names its status; OK means not low, LOW means low, any other text UNKNOWN. */
  lemma DecodeStatusAndBattery(values: map<string, string>, prev: Reading)
    requires Decode(values, prev).Ok?
    ensures var r := Decode(values, prev).value;
      && (KeyHumidityStatus in values ==> r.humidityStatus == HumidityStatusName(ParseToInt(values[KeyHumidityStatus]).value))
      && (KeyHumidityStatus !in values ==> r.humidityStatus == prev.humidityStatus)
      && (KeyLowBattery in values ==>
            && (r.batteryStatus == Off <==> EqualsIgnoreCase(values[KeyLowBattery], "OK"))
            && (r.batteryStatus == On <==> EqualsIgnoreCase(values[KeyLowBattery], "LOW")))
      && (KeyLowBattery !in values ==> r.batteryStatus == prev.batteryStatus)
  {
    if KeyLowBattery in values {
      BatteryCommandText(values[KeyLowBattery]);
    }
  }

  /** `getStates()`: temperature, humidity and status always; lowBattery unless the status is UNKNOWN. */
  function States(r: Reading): (m: map<string, State>)
    ensures {TemperatureChannel, HumidityChannel, HumidityStatusChannel} <= m.Keys
    ensures m.Keys <= {TemperatureChannel, HumidityChannel, HumidityStatusChannel, LowBatteryChannel}
    ensures LowBatteryChannel in m <==> r.batteryStatus != Unknown
    ensures LowBatteryChannel in m ==> m[LowBatteryChannel] == OnOffState(r.batteryStatus == On)
    ensures m[TemperatureChannel] == DecimalState(Tenths(r.temperature))
  {
    var always := map[
      TemperatureChannel := DecimalState(Tenths(r.temperature)),
      HumidityChannel := DecimalState(r.humidity as real),
      HumidityStatusChannel := StringState(r.humidityStatus)];
    match OnOffOf(r.batteryStatus)
    case None => always
    case Some(low) => always[LowBatteryChannel := OnOffState(low)]
  }

  /**
   * What the measurement channels carry after a decode: the TEMP tenths divided by ten, the
   * HUM value, and the name of the HSTATUS code; a field that is absent reports its previous
   * reading.
   */
  lemma DecodedStates(values: map<string, string>, prev: Reading)
    requires Decode(values, prev).Ok?
    ensures var m := States(Decode(values, prev).value);
      && m[TemperatureChannel] == DecimalState((if KeyTemperature in values
           then TemperatureTenths(ParseHexaToUnsignedInt(values[KeyTemperature]).value) else prev.temperature) as real / 10.0)
      && m[HumidityChannel] == DecimalState(
           (if KeyHumidity in values then ParseToInt(values[KeyHumidity]).value else prev.humidity) as real)
      && m[HumidityStatusChannel] == StringState(if KeyHumidityStatus in values
           then HumidityStatusName(ParseToInt(values[KeyHumidityStatus]).value) else prev.humidityStatus)
  {
  }

  class OregonTempHygroMessage {
    const base: BaseMessage
    var temperature: int
    var humidity: int
    var humidityStatus: string
    var batteryStatus: Command

    /** `new RfLinkOregonTempHygroMessage()`: nothing parsed, the field defaults. */
    constructor ()
      ensures fresh(base) && Current() == Default
      ensures base.rawMessage == None && base.values == map[]
      ensures base.seqNbr == 0 && base.deviceName == None && base.deviceId == None
    {
      base := new BaseMessage();
      temperature := 0;
      humidity := 0;
      humidityStatus := "UNKNOWN";
      batteryStatus := Off;
    }

    function Current(): Reading
      reads this
    {
      Reading(temperature, humidity, humidityStatus, batteryStatus)
    }

    /** `encodeMessage(data)`: the base parse, then TEMP, HUM, HSTATUS and BAT. */
    method EncodeMessage(data: string) returns (outcome: Outcome)
      modifies this, base
      ensures base.Encoded(data)
      ensures var f := ParseFrameInto(data, old(base.values));
        && (f.Err? ==> outcome == Fail(f.error) && Current() == old(Current()))
        && (f.Ok? ==> var d := Decode(f.value.values, old(Current()));
              outcome == OutcomeOf(d) && (d.Ok? ==> Current() == d.value))
    {
      outcome := base.EncodeMessage(data);
      if outcome.Fail? {
        return;
      }
      outcome := DecodeFields(base.values);
    }

    /** The family part of `encodeMessage`, on the field map the base parse left. */
    method DecodeFields(values: map<string, string>) returns (outcome: Outcome)
      modifies this
      ensures var d := Decode(values, old(Current()));
        outcome == OutcomeOf(d) && (d.Ok? ==> Current() == d.value)
    {
      if KeyTemperature in values {
        var v := ParseHexaToUnsignedInt(values[KeyTemperature]);
        if v.None? {
          return Fail(NumberFormat);
        }
        var temp := v.value;
        if SignBitSet(temp) {
          temp := Low15(temp);
          temp := 0 - temp;
        }
        temperature := temp;
      }
      if KeyHumidity in values {
        var v := ParseToInt(values[KeyHumidity]);
        if v.None? {
          return Fail(NumberFormat);
        }
        humidity := v.value;
      }
      if KeyHumidityStatus in values {
        var v := ParseToInt(values[KeyHumidityStatus]);
        if v.None? {
          return Fail(NumberFormat);
        }
        humidityStatus := HumidityStatusName(v.value);
      }
      if KeyLowBattery in values {
        var c := FromString(BatteryTexts, values[KeyLowBattery]);
        batteryStatus := if c.None? then Unknown else c.value;
      }
      return Pass;
    }

    /** `initializeFromChannel`: whatever the channel and command, transmission is refused. */
    method InitializeFromChannel(channel: string, command: TypeUtils.Type) returns (outcome: Outcome)
      ensures outcome == Fail(NotImp)
    {
      return Fail(NotImp);
    }
  }
}
