/**
 * RfLinkEnergyMessage: instant power (WATT) and total usage (KWATT), both unsigned hexadecimal
 * watts, with the currents derived from them at 230 V; transmission is refused.
 */
module EnergyMessage {
  import opened Common
  import opened JavaText
  import opened DataParser
  import opened Channels
  import opened RfLinkBase
  import TypeUtils

  /** `WATTS_TO_AMPS_CONVERSION_FACTOR`: the mains voltage every usage is reported against. */
  const WattsToAmps: real := 230.0

  const KeyInstantPower: string := "WATT"
  const KeyTotalPower: string := "KWATT"

  /** `keys()`. */
  const Keys: seq<string> := [KeyInstantPower, KeyTotalPower]

  /** `getThingType()`. */
  const ThingType: string := "energy"

  /** The family's four fields; the currents are exact quotients (float rounding is not modelled). */
  datatype Reading = Reading(instantPower: int, instantAmps: real, totalUsage: int, totalAmpHours: real)

  const Default: Reading := Reading(0, 0.0, 0, 0.0)

  /** Each current is its power divided by the voltage. */
  predicate Consistent(r: Reading)
  {
    r.instantAmps * WattsToAmps == r.instantPower as real && r.totalAmpHours * WattsToAmps == r.totalUsage as real
  }

  /** The family part of `encodeMessage`: WATT sets power and amps, then KWATT sets usage and amp-hours. */
  function Decode(values: map<string, string>, prev: Reading): (r: Result<Reading>)
    ensures r.Err? <==>
      || (KeyInstantPower in values && ParseHexaToUnsignedInt(values[KeyInstantPower]).None?)
      || (KeyTotalPower in values && ParseHexaToUnsignedInt(values[KeyTotalPower]).None?)
    ensures r.Err? ==> r.error == NumberFormat
  {
    var power :- FieldValue(values, KeyInstantPower, ParseHexaToUnsignedInt, prev.instantPower);
    var amps := if KeyInstantPower in values then power as real / WattsToAmps else prev.instantAmps;
    var usage :- FieldValue(values, KeyTotalPower, ParseHexaToUnsignedInt, prev.totalUsage);
    var ampHours := if KeyTotalPower in values then usage as real / WattsToAmps else prev.totalAmpHours;
    Ok(Reading(power, amps, usage, ampHours))
  }

  /** The readings start consistent, and every decode keeps them so. */
  lemma DecodeKeepsConsistent(values: map<string, string>, prev: Reading)
    requires Consistent(prev)
    ensures Consistent(Default)
    ensures Decode(values, prev).Ok? ==> Consistent(Decode(values, prev).value)
  {
  }

  /** Absent keys leave all four readings as they were; present ones replace exactly their pair. */
  lemma DecodeFormatted(power: nat, values: map<string, string>, prev: Reading)
    requires power <= IntMax
    requires KeyInstantPower in values && values[KeyInstantPower] == FormatHex(power, 4)
    ensures KeyTotalPower !in values ==>
      Decode(values, prev) == Ok(prev.(instantPower := power, instantAmps := power as real / 230.0))
  {
    UnsignedRoundTrip(power);
  }

  lemma DecodeAbsent(values: map<string, string>, prev: Reading)
    requires KeyInstantPower !in values && KeyTotalPower !in values
    ensures Decode(values, prev) == Ok(prev)
  {
  }

  /** `getStates()`: exactly the four energy channels. */
  function States(r: Reading): (m: map<string, State>)
    ensures m.Keys == {InstantPowerChannel, InstantAmpsChannel, TotalAmpHoursChannel, TotalUsageChannel}
    ensures m[InstantPowerChannel] == DecimalState(r.instantPower as real)
    ensures m[TotalUsageChannel] == DecimalState(r.totalUsage as real)
  {
    map[
      InstantPowerChannel := DecimalState(r.instantPower as real),
      InstantAmpsChannel := DecimalState(r.instantAmps),
      TotalAmpHoursChannel := DecimalState(r.totalAmpHours),
      TotalUsageChannel := DecimalState(r.totalUsage as real)]
  }

  /**
   * What the four channels carry after a decode: the WATT and KWATT values, and each divided by
   * 230 as the instant current and the amp-hours; with neither field present, the previous
   * readings.
   */
  lemma DecodedStates(values: map<string, string>, prev: Reading)
    requires Decode(values, prev).Ok?
    ensures var m := States(Decode(values, prev).value);
      && (KeyInstantPower in values ==>
            var w := ParseHexaToUnsignedInt(values[KeyInstantPower]).value;
            m[InstantPowerChannel] == DecimalState(w as real) && m[InstantAmpsChannel] == DecimalState(w as real / 230.0))
      && (KeyTotalPower in values ==>
            var u := ParseHexaToUnsignedInt(values[KeyTotalPower]).value;
            m[TotalUsageChannel] == DecimalState(u as real) && m[TotalAmpHoursChannel] == DecimalState(u as real / 230.0))
      && (KeyInstantPower !in values ==>
            m[InstantPowerChannel] == DecimalState(prev.instantPower as real) && m[InstantAmpsChannel] == DecimalState(prev.instantAmps))
      && (KeyTotalPower !in values ==>
            m[TotalUsageChannel] == DecimalState(prev.totalUsage as real) && m[TotalAmpHoursChannel] == DecimalState(prev.totalAmpHours))
  {
  }

  class EnergyMessage {
    const base: BaseMessage
    var instantAmps: real
    var totalAmpHours: real
    var instantPower: int
    var totalUsage: int

    /** `new RfLinkEnergyMessage()`: nothing parsed, all four readings 0. */
    constructor ()
      ensures fresh(base) && Current() == Default
      ensures base.rawMessage == None && base.values == map[]
      ensures base.seqNbr == 0 && base.deviceName == None && base.deviceId == None
    {
      base := new BaseMessage();
      instantAmps := 0.0;
      totalAmpHours := 0.0;
      instantPower := 0;
      totalUsage := 0;
    }

    function Current(): Reading
      reads this
    {
      Reading(instantPower, instantAmps, totalUsage, totalAmpHours)
    }

    /** `encodeMessage(data)`: the base parse, then WATT and KWATT. */
    method EncodeMessage(data: string) returns (outcome: Outcome)
      modifies this, base
      ensures base.Encoded(data)
      ensures var f := ParseFrameInto(data, old(base.values));
        && (f.Err? ==> outcome == Fail(f.error) && Current() == old(Current()))
        && (f.Ok? ==> var d := Decode(f.value.values, old(Current()));
              outcome == OutcomeOf(d) && (d.Ok? ==> Current() == d.value))
    {
      outcome := base.EncodeMessage(data);
      if outcome.Fail? {
        return;
      }
      if KeyInstantPower in base.values {
        var v := ParseHexaToUnsignedInt(base.values[KeyInstantPower]);
        if v.None? {
          return Fail(NumberFormat);
        }
        instantPower := v.value;
        instantAmps := instantPower as real / WattsToAmps;
      }
      if KeyTotalPower in base.values {
        var v := ParseHexaToUnsignedInt(base.values[KeyTotalPower]);
        if v.None? {
          return Fail(NumberFormat);
        }
        totalUsage := v.value;
        totalAmpHours := totalUsage as real / WattsToAmps;
      }
    }

    /** `initializeFromChannel`: whatever the channel and command, transmission is refused. */
    method InitializeFromChannel(channel: string, command: TypeUtils.Type) returns (outcome: Outcome)
      ensures outcome == Fail(NotImp)
    {
      return Fail(NotImp);
    }
  }
}
