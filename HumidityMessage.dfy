/** RfLinkHumidityMessage: a HUM field read as a decimal percentage; transmission is refused. */
module HumidityMessage {
  import opened Common
  import opened JavaText
  import opened DataParser
  import opened Channels
  import opened RfLinkBase
  import TypeUtils

  const KeyHumidity: string := "HUM"

  /** `keys()`. */
  const Keys: seq<string> := [KeyHumidity]

  /** `getThingType()`. */
  const ThingType: string := "humidity"

  /** The family's field: `humidity`, in percent. */
  datatype Reading = Reading(humidity: int)

  const Default: Reading := Reading(0)

  /** The family part of `encodeMessage`: HUM, when present, replaces the humidity. */
  function Decode(values: map<string, string>, prev: Reading): (r: Result<Reading>)
    ensures r.Err? <==> KeyHumidity in values && ParseToInt(values[KeyHumidity]).None?
    ensures r.Err? ==> r.error == NumberFormat
    ensures KeyHumidity !in values ==> r == Ok(prev)
  {
    var h :- FieldValue(values, KeyHumidity, ParseToInt, prev.humidity);
    Ok(Reading(h))
  }

  /** `getStates()`: the humidity channel alone. */
  function States(r: Reading): (m: map<string, State>)
    ensures m.Keys == {HumidityChannel}
  {
    map[HumidityChannel := DecimalState(r.humidity as real)]
  }

  /** Round trip: a humidity written in decimal digits decodes back to itself. */
  lemma DecodeFormatted(h: nat, values: map<string, string>, prev: Reading)
    requires h <= IntMax
    requires KeyHumidity in values && values[KeyHumidity] == FormatDigits(h, 10)
    ensures Decode(values, prev) == Ok(Reading(h))
    ensures States(Decode(values, prev).value)[HumidityChannel] == DecimalState(h as real)
  {
    ParseFormatDecimal(h);
  }

  class HumidityMessage {
    const base: BaseMessage
    var humidity: int

    /** `new RfLinkHumidityMessage()`: nothing parsed, humidity 0. */
    constructor ()
      ensures fresh(base) && Current() == Default
      ensures base.rawMessage == None && base.values == map[]
      ensures base.seqNbr == 0 && base.deviceName == None && base.deviceId == None
    {
      base := new BaseMessage();
      humidity := 0;
    }

    function Current(): Reading
      reads this
    {
      Reading(humidity)
    }

    /** `encodeMessage(data)`: the base parse, then HUM. */
    method EncodeMessage(data: string) returns (outcome: Outcome)
      modifies this, base
      ensures base.Encoded(data)
      ensures var f := ParseFrameInto(data, old(base.values));
        && (f.Err? ==> outcome == Fail(f.error) && Current() == old(Current()))
        && (f.Ok? ==> var d := Decode(f.value.values, old(Current()));
              outcome == OutcomeOf(d) && (d.Ok? ==> Current() == d.value))
    {
      outcome := base.EncodeMessage(data);
      if outcome.Fail? {
        return;
      }
      if KeyHumidity in base.values {
        var h := ParseToInt(base.values[KeyHumidity]);
        if h.None? {
          return Fail(NumberFormat);
        }
        humidity := h.value;
      }
    }

    /** `initializeFromChannel`: whatever the channel and command, transmission is refused. */
    method InitializeFromChannel(channel: string, command: TypeUtils.Type) returns (outcome: Outcome)
      ensures outcome == Fail(NotImp)
    {
      return Fail(NotImp);
    }
  }
}
