/** RfLinkTemperatureMessage: a TEMP field read as unsigned hexadecimal tenths of a degree. */
module TemperatureMessage {
  import opened Common
  import opened JavaText
  import opened DataParser
  import opened Channels
  import opened RfLinkBase

  const KeyTemperature: string := "TEMP"

  /** `keys()`: the field names that identify the family. */
  const Keys: seq<string> := [KeyTemperature]

  /** `getThingType()`. */
  const ThingType: string := "temperature"

  /** The family's field: `temperature`, in tenths of a degree. */
  datatype Reading = Reading(temperature: int)

  const Default: Reading := Reading(0)

  /**
   * The family part of `encodeMessage`: TEMP, when present, replaces the temperature; no
   * sign bit is read, so every parsed value counts upwards.
   */
  function Decode(values: map<string, string>, prev: Reading): (r: Result<Reading>)
    ensures r.Err? <==> KeyTemperature in values && ParseHexaToUnsignedTenths(values[KeyTemperature]).None?
    ensures r.Err? ==> r.error == NumberFormat
    ensures KeyTemperature !in values ==> r == Ok(prev)
  {
    var t :- FieldValue(values, KeyTemperature, ParseHexaToUnsignedTenths, prev.temperature);
    Ok(Reading(t))
  }

  /** `getStates()`: the temperature channel alone. */
  function States(r: Reading): (m: map<string, State>)
    ensures m.Keys == {TemperatureChannel}
  {
    map[TemperatureChannel := DecimalState(Tenths(r.temperature))]
  }

  /** Round trip: the four hex digits a sensor writes for `t` tenths decode back to `t`. */
  lemma DecodeFormatted(t: nat, values: map<string, string>, prev: Reading)
    requires t <= IntMax
    requires KeyTemperature in values && values[KeyTemperature] == FormatHex(t, 4)
    ensures Decode(values, prev) == Ok(Reading(t))
    ensures States(Decode(values, prev).value)[TemperatureChannel] == DecimalState(t as real / 10.0)
  {
    UnsignedRoundTrip(t);
  }

  /** `80C0` is 3296.0 degrees here: bit 15 is not a sign for this family. */
  lemma NoSignBit()
    ensures Decode(map[KeyTemperature := "80C0"], Default) == Ok(Reading(0x80C0))
    ensures Tenths(0x80C0) == 3296.0
  {
    assert DigitsValue("80C0", 16) == 0x80C0 by {
      assert "80C0"[..3] == "80C" && "80C"[..2] == "80" && "80"[..1] == "8";
    }
  }

  /**
   * End to end: a gateway line `20;<seq>;<name>;ID=<id>;TEMP=<hex>;` gives a fresh message the
   * temperature the sensor encoded.
   */
  lemma ReportedTemperature(seqNbr: nat, name: string, id: string, t: nat)
    requires seqNbr < 256 && IsName(name) && name != ""
    requires id != "" && FieldsDelimiter !in id && ValueDelimiter !in id
    requires t <= IntMax
    ensures ParseFrame(FormatFrame(seqNbr, name, id, [(KeyTemperature, FormatHex(t, 4))])).Ok?
    ensures Decode(ParseFrame(FormatFrame(seqNbr, name, id, [(KeyTemperature, FormatHex(t, 4))])).value.values, Default)
      == Ok(Reading(t))
  {
    var fields := [(KeyTemperature, FormatHex(t, 4))];
    var hex := FormatHex(t, 4);
    assert FieldsDelimiter !in hex by {
      forall i | 0 <= i < |hex| ensures hex[i] != ';' { assert DigitValue(hex[i]) >= 0; }
    }
    assert WellFormedReport(seqNbr, name, id, fields);
    FormatParseValue(seqNbr, name, id, fields, 0);
    DecodeFormatted(t, ParseFrame(FormatFrame(seqNbr, name, id, fields)).value.values, Default);
  }

  class TemperatureMessage {
    const base: BaseMessage
    var temperature: int

    /** `new RfLinkTemperatureMessage()`: nothing parsed, temperature 0. */
    constructor ()
      ensures fresh(base) && Current() == Default
      ensures base.rawMessage == None && base.values == map[]
      ensures base.seqNbr == 0 && base.deviceName == None && base.deviceId == None
    {
      base := new BaseMessage();
      temperature := 0;
    }

    function Current(): Reading
      reads this
    {
      Reading(temperature)
    }

    /**
     * `encodeMessage(data)`: the base parse, then the family fields from its field map. A base
     * failure leaves the family fields as they were.
     */
    method EncodeMessage(data: string) returns (outcome: Outcome)
      modifies this, base
      ensures base.Encoded(data)
      ensures var f := ParseFrameInto(data, old(base.values));
        && (f.Err? ==> outcome == Fail(f.error) && Current() == old(Current()))
        && (f.Ok? ==> var d := Decode(f.value.values, old(Current()));
              outcome == OutcomeOf(d) && (d.Ok? ==> Current() == d.value))
    {
      outcome := base.EncodeMessage(data);
      if outcome.Fail? {
        return;
      }
      if KeyTemperature in base.values {
        var t := ParseHexaToUnsignedTenths(base.values[KeyTemperature]);
        if t.None? {
          return Fail(NumberFormat);
        }
        temperature := t.value;
      }
    }
  }
}
