# RFLink protocol engine, modelled in Dafny

This project models the protocol engine of the openHAB RFLink binding. An RFLink gateway reports radio
traffic as text lines such as `20;31;Mebus;ID=c201;TEMP=00cf;`. The binding turns them into device
messages, and turns device commands back into lines for the gateway.

What the model covers:

- **Frame parsing.** `RfLinkBase` models `RfLinkBaseMessage.encodeMessage`. It splits a line on `;`,
  accepts it only with at least five pieces and the gateway node number `20`, and then reads:
  - the sequence number, as a byte cast of a hex parse;
  - the device name, keeping only `[A-Za-z0-9_-]`;
  - the device id, after `ID=`;
  - every `NAME=value` field, into a map where a later field replaces an earlier one.

  Round-trip lemmas show that a well-formed line written from a header and fields is parsed back to
  them.
- **Field decoders.** `DataParser` models `RfLinkDataParser`, with `JavaText` holding the Java library
  behaviour the code relies on: `String.split`, `indexOf`, `Integer.parseInt`, the byte cast,
  `String.format("%02X")`, truncating division and ASCII `equalsIgnoreCase`. The signed hexadecimal
  reading is sign-magnitude, with the sign in bit 15. A sensor temperature written that way is proved
  to be read back.
- **Message families.** There is one module per family: Switch, Rts, Oregon temperature/hygrometer,
  Temperature, Humidity, Rain, Energy, Wind, WH1080 weather station, Color and Raw.
  - Switch, Oregon, Temperature, Humidity, Rain, Energy, Wind and WH1080 each have a pure `Decode` over
    the field map and the previous reading. It states which keys set which reading and which malformed
    value raises the parse error.
  - Every family but Wind and Raw has a `States` function giving the channel states it reports. Wind
    inherits the base message's `null`, Raw reports nothing, and Rts's map is always empty.
  - Each family class owns a base message. For the families with a `Decode`, `EncodeMessage` is proved
    to leave the fields equal to `Decode` of what the base parser produced.
  - Rts has no decode of its own: only the base parse runs, and the switch code never changes.
  - Color decodes RGBW with `DecodeRgbw` and applies CMD with `ApplyCmd`, through a colour cache.
  - Raw only stores the line it is given.
- **Factory.** `MessageFactory` models the registry from field key to message family and the thing-type
  table. It also models classifying a parsed line by any of its keys, and building an outbound message
  for a thing type.
- **Bridge.** `BridgeHandler` models the transmit queue and the list of device listeners. Sending
  drains the queue in FIFO order until a send fails. Registering or unregistering a listener keeps the
  list free of duplicates. An inbound line is handed, once classified, to every listener in order.
- **Type utilities.** `TypeUtils` models `RfLinkTypeUtils`:
  - the synonym groups (UP/ON/ALLON/OPEN/INCREASE and their opposites) and the antonym table;
  - the lookup by name;
  - the UP/DOWN and ON/OFF classification of commands and percentages;
  - `boundDecimal`, `toDecimalType` with Java `int` overflow, and `getOnOffCommandFromDimming`.

Java `null` results become `Option`, exceptions become the `Err` case of `Result`, and Java `int` is
written out as 32-bit where it matters (`Int32`, `ToByte`).

## Model

| member | source | states |
|---|---|---|
| RfLinkBase.SanitizeName | src/main/java/org/openhab/binding/rflink/messages/RfLinkBaseMessage.java:65-67 | the device name keeps only characters of `[A-Za-z0-9_-]` and is no longer than the field |
| RfLinkBase.SanitizeAppend | src/main/java/org/openhab/binding/rflink/messages/RfLinkBaseMessage.java:67 | the character filter distributes over concatenation: each character is kept or dropped on its own |
| RfLinkBase.SanitizeValid | src/main/java/org/openhab/binding/rflink/messages/RfLinkBaseMessage.java:67 | a name already made of allowed characters is left unchanged |
| RfLinkBase.SanitizeIdempotent | src/main/java/org/openhab/binding/rflink/messages/RfLinkBaseMessage.java:67 | sanitising a name twice gives the same result as sanitising it once |
| RfLinkBase.DeviceIdBetweenDelimiters | src/main/java/org/openhab/binding/rflink/messages/RfLinkBaseMessage.java:68 | the device id of `ID=<id>` is the text between the first and the second `=` |
| RfLinkBase.DeviceIdNeedsDelimiter | src/main/java/org/openhab/binding/rflink/messages/RfLinkBaseMessage.java:68 | a fourth field with no `=` has no second piece, so the parse fails with an index error |
| RfLinkBase.PutFields | src/main/java/org/openhab/binding/rflink/messages/RfLinkBaseMessage.java:71-79 | the keyed-field loop fails only with the index error that `substring(0, -1)` raises |
| RfLinkBase.PutFieldsOkIff | src/main/java/org/openhab/binding/rflink/messages/RfLinkBaseMessage.java:71-79 | the loop succeeds exactly when every keyed field contains `=` |
| RfLinkBase.PutFieldsKeys | src/main/java/org/openhab/binding/rflink/messages/RfLinkBaseMessage.java:71-79 | after the loop the map's names are the names it had before plus the text before the first `=` of every field |
| RfLinkBase.PutFieldsLastWins | src/main/java/org/openhab/binding/rflink/messages/RfLinkBaseMessage.java:74-78 | a name that occurs more than once keeps the value after the first `=` of its last occurrence, any further `=` included |
| RfLinkBase.PutFieldsFailsFrom | src/main/java/org/openhab/binding/rflink/messages/RfLinkBaseMessage.java:71-79 | once a field without `=` fails the loop, nothing after it changes the result |
| RfLinkBase.FieldWithoutDelimiterFails | src/main/java/org/openhab/binding/rflink/messages/RfLinkBaseMessage.java:74-75 | a keyed field without `=` anywhere in the line fails the whole parse rather than being skipped |
| RfLinkBase.IgnoredLines | src/main/java/org/openhab/binding/rflink/messages/RfLinkBaseMessage.java:57-61 | a line is ignored (no header, no fields) exactly when it has fewer than 5 fields or does not start with `20` |
| RfLinkBase.FrameContents | src/main/java/org/openhab/binding/rflink/messages/RfLinkBaseMessage.java:50-82 | a parsed header holds the byte cast of the hex sequence number, the sanitised name and the device id, and the map holds the parsed keyed fields |
| RfLinkBase.BadSequenceNumber | src/main/java/org/openhab/binding/rflink/messages/RfLinkBaseMessage.java:63 | a gateway frame whose sequence number is not hexadecimal raises the number-format error |
| RfLinkBase.FieldTexts | src/main/java/org/openhab/binding/rflink/messages/RfLinkBaseMessage.java:58 | each reported field is written as `name=value`, in order |
| RfLinkBase.FieldTextSplit | src/main/java/org/openhab/binding/rflink/messages/RfLinkBaseMessage.java:74-76 | for a name without `=`, the field `name=value` splits back into that name and that value |
| RfLinkBase.FormatFrameSplits | src/main/java/org/openhab/binding/rflink/messages/RfLinkBaseMessage.java:54 | a well-formed report line ending in `;` splits on `;` into exactly its elements |
| RfLinkBase.FormatParseHeader | src/main/java/org/openhab/binding/rflink/messages/RfLinkBaseMessage.java:50-82 | round trip: a well-formed report parses back into its sequence number (as a byte), its name and its id |
| RfLinkBase.HeaderElements | src/main/java/org/openhab/binding/rflink/messages/RfLinkBaseMessage.java:63-68 | the written sequence number, name and id each read back as written |
| RfLinkBase.FormatParseKeys | src/main/java/org/openhab/binding/rflink/messages/RfLinkBaseMessage.java:71-79 | round trip: the field map holds exactly the names of the report's fields |
| RfLinkBase.FormatParseValue | src/main/java/org/openhab/binding/rflink/messages/RfLinkBaseMessage.java:71-79 | round trip: each name maps to the value of its last field in the report |
| RfLinkBase.ExampleFrame | src/main/java/org/openhab/binding/rflink/messages/RfLinkBaseMessage.java:57-58 | the comment's example line splits into its five fields; the empty piece after the final `;` is dropped |
| RfLinkBase.BaseMessage.constructor | src/main/java/org/openhab/binding/rflink/messages/RfLinkBaseMessage.java:30-38 | a new message has no raw line, sequence number 0, no name, no id and an empty field map |
| RfLinkBase.BaseMessage.EncodeMessage | src/main/java/org/openhab/binding/rflink/messages/RfLinkBaseMessage.java:50-82 | the raw line is always kept; a gateway frame sets the header and adds its fields to the map; an ignored line changes nothing else; the outcome is the parse's |
| RfLinkBase.BaseMessage.PutValues | src/main/java/org/openhab/binding/rflink/messages/RfLinkBaseMessage.java:71-79 | the loop puts each field into the map in order, or stops with the index error, and leaves the header alone |
| DataParser.Low15 | src/main/java/org/openhab/binding/rflink/messages/RfLinkDataParser.java:38 | `v & 0x7FFF` lies in 0..0x7FFF |
| DataParser.SignMagnitude | src/main/java/org/openhab/binding/rflink/messages/RfLinkDataParser.java:35-39 | the result is plus or minus the low 15 bits, negative only when bit 15 is set |
| DataParser.ParseHexaToSignedInt | src/main/java/org/openhab/binding/rflink/messages/RfLinkDataParser.java:33-40 | the signed parse succeeds exactly when the hex parse does, and lies in -0x7FFF..0x7FFF |
| DataParser.DirectionRange | src/main/java/org/openhab/binding/rflink/messages/RfLinkDataParser.java:50-58 | indices 0..15 give 0 to 337.5 degrees |
| DataParser.EncodeSignedTenths | src/main/java/org/openhab/binding/rflink/messages/RfLinkDataParser.java:33-44 | a sensor temperature is written as four hex digits, sign in bit 15 |
| DataParser.SignedTenthsRoundTrip | src/main/java/org/openhab/binding/rflink/messages/RfLinkDataParser.java:33-44 | round trip: every temperature in range, sign included, is read back by the signed decoder |
| DataParser.UnsignedRoundTrip | src/main/java/org/openhab/binding/rflink/messages/RfLinkDataParser.java:29-48 | round trip: four hex digits read back by the unsigned decoders |
| DataParser.PositiveExample | src/main/java/org/openhab/binding/rflink/messages/RfLinkDataParser.java:42-44 | `00C0` is 19.2 |
| DataParser.NegativeExample | src/main/java/org/openhab/binding/rflink/messages/RfLinkDataParser.java:33-44 | `80C0` is -19.2 |
| DataParser.NegativeZero | src/main/java/org/openhab/binding/rflink/messages/RfLinkDataParser.java:35-36 | `8000`, the negative zero of sign-magnitude, is read as 0 |
| DataParser.UnsignedNonNegative | src/main/java/org/openhab/binding/rflink/messages/RfLinkDataParser.java:25-31 | a field of digits only never parses to a negative number, in decimal or in hex |
| DataParser.DigitsLength | src/main/java/org/openhab/binding/rflink/messages/RfLinkDataParser.java:29-31 | a number below 16^k needs at most k hex digits |
| DataParser.FormatDigitsBound | src/main/java/org/openhab/binding/rflink/messages/RfLinkDataParser.java:29-31 | a 16-bit value needs at most four hex digits |
| OnOffCommands.LookupFirstMatch | src/main/java/org/openhab/binding/rflink/messages/RfLinkSwitchMessage.java:54-63 | the lookup answers the first constant whose text matches ignoring case, and none exactly when no text matches |
| OnOffCommands.FromString | src/main/java/org/openhab/binding/rflink/messages/RfLinkSwitchMessage.java:54-63 | the loop over the enum constants returns what the lookup specifies |
| OnOffCommands.SwitchCommandText | src/main/java/org/openhab/binding/rflink/messages/RfLinkSwitchMessage.java:32-36 | a switch CMD is ON or OFF exactly when it spells that word in any case, and UNKNOWN otherwise |
| OnOffCommands.BatteryCommandText | src/main/java/org/openhab/binding/rflink/messages/RfLinkOregonTempHygroMessage.java:45-49 | a BAT text is OFF (not low) exactly for `OK`, ON exactly for `LOW`, in any case, and UNKNOWN otherwise |
| OnOffCommands.EmptyTextIsUnknown | src/main/java/org/openhab/binding/rflink/messages/RfLinkSwitchMessage.java:36 | the empty text matches the UNKNOWN constant's own text |
| OnOffCommands.FromCommandInverts | src/main/java/org/openhab/binding/rflink/messages/RfLinkOregonTempHygroMessage.java:78-87 | `fromCommand` answers the constant whose on/off state is the command, only for ON and OFF, so it inverts `getOnOffType` |
| SwitchMessage.DecodeCommand | src/main/java/org/openhab/binding/rflink/messages/RfLinkSwitchMessage.java:96-114 | CMD sets ON or OFF exactly when it spells them in any case, and UNKNOWN otherwise; SWITCH sets the switch code; absent fields keep the old values |
| SwitchMessage.DecodeDefaults | src/main/java/org/openhab/binding/rflink/messages/RfLinkSwitchMessage.java:66-67 | a new message given neither field reports OFF and has the empty switch code |
| SwitchMessage.States | src/main/java/org/openhab/binding/rflink/messages/RfLinkSwitchMessage.java:121-131 | the command channel is present exactly when the command is ON or OFF, and holds that state |
| SwitchMessage.SwitchMessage.constructor | src/main/java/org/openhab/binding/rflink/messages/RfLinkSwitchMessage.java:66-70 | a new message has the empty switch code and command OFF |
| SwitchMessage.SwitchMessage.EncodeMessage | src/main/java/org/openhab/binding/rflink/messages/RfLinkSwitchMessage.java:96-114 | the base parse, then the family decode on its field map; only the base parse can fail |
| SwitchMessage.NewSwitchMessage | src/main/java/org/openhab/binding/rflink/messages/RfLinkSwitchMessage.java:72-84 | the device id of a parsed frame is the base id, `-` and the SWITCH value, or nothing after the `-` without SWITCH |
| OregonTempHygroMessage.TemperatureIsSignMagnitude | src/main/java/org/openhab/binding/rflink/messages/RfLinkOregonTempHygroMessage.java:108-115 | on four hex digits the TEMP decoding is the shared sign-magnitude decoder |
| OregonTempHygroMessage.HighBitsKept | src/main/java/org/openhab/binding/rflink/messages/RfLinkOregonTempHygroMessage.java:109-114 | above 16 bits the TEMP decoding keeps the high bits, where the shared decoder drops them |
| OregonTempHygroMessage.HumidityStatusName | src/main/java/org/openhab/binding/rflink/messages/RfLinkOregonTempHygroMessage.java:122-128 | the status is UNKNOWN exactly for codes outside 0..3 |
| OregonTempHygroMessage.HumidityStatusInjective | src/main/java/org/openhab/binding/rflink/messages/RfLinkOregonTempHygroMessage.java:122-128 | the four known codes name four different statuses |
| OregonTempHygroMessage.Decode | src/main/java/org/openhab/binding/rflink/messages/RfLinkOregonTempHygroMessage.java:103-141 | the decode fails, with the number-format error, exactly when TEMP, HUM or HSTATUS is present and does not parse |
| OregonTempHygroMessage.DecodeTemperature | src/main/java/org/openhab/binding/rflink/messages/RfLinkOregonTempHygroMessage.java:108-115 | round trip: a temperature written in sign-magnitude decodes back, sign included, and the temperature channel shows it in tenths |
| OregonTempHygroMessage.NegativeExample | src/main/java/org/openhab/binding/rflink/messages/RfLinkOregonTempHygroMessage.java:108-115 | `TEMP=80C0` is -19.2 degrees |
| OregonTempHygroMessage.DecodeStatusAndBattery | src/main/java/org/openhab/binding/rflink/messages/RfLinkOregonTempHygroMessage.java:121-140 | HSTATUS's code names the status; BAT is OFF for `OK` and ON for `LOW` in any case; absent fields keep the old values |
| OregonTempHygroMessage.States | src/main/java/org/openhab/binding/rflink/messages/RfLinkOregonTempHygroMessage.java:148-163 | temperature, humidity and status are always reported; lowBattery exactly when the battery status is known |
| OregonTempHygroMessage.DecodedStates | src/main/java/org/openhab/binding/rflink/messages/RfLinkOregonTempHygroMessage.java:103-163 | after a decode, temperature carries the sign-magnitude TEMP in tenths, humidity the decimal HUM, status the name of HSTATUS's code, each the previous value when the key is absent |
| OregonTempHygroMessage.OregonTempHygroMessage.constructor | src/main/java/org/openhab/binding/rflink/messages/RfLinkOregonTempHygroMessage.java:40-43 | a new message holds 0, 0, UNKNOWN and battery OFF |
| OregonTempHygroMessage.OregonTempHygroMessage.EncodeMessage | src/main/java/org/openhab/binding/rflink/messages/RfLinkOregonTempHygroMessage.java:103-141 | the base parse, then the family decode on its field map; each step's error is the outcome |
| OregonTempHygroMessage.OregonTempHygroMessage.DecodeFields | src/main/java/org/openhab/binding/rflink/messages/RfLinkOregonTempHygroMessage.java:108-140 | the family statements set the fields to the decode's result, or stop with its error |
| OregonTempHygroMessage.OregonTempHygroMessage.InitializeFromChannel | src/main/java/org/openhab/binding/rflink/messages/RfLinkOregonTempHygroMessage.java:178-182 | transmission is always refused with the not-implemented error |
| TemperatureMessage.Decode | src/main/java/org/openhab/binding/rflink/messages/RfLinkTemperatureMessage.java:47-55 | the decode fails, with the number-format error, exactly when TEMP is present and is not hexadecimal; without TEMP the reading is kept |
| TemperatureMessage.States | src/main/java/org/openhab/binding/rflink/messages/RfLinkTemperatureMessage.java:62-70 | the temperature channel alone is reported |
| TemperatureMessage.DecodeFormatted | src/main/java/org/openhab/binding/rflink/messages/RfLinkTemperatureMessage.java:52-54 | round trip: four hex digits written for t tenths decode back to t and are reported as t/10 |
| TemperatureMessage.NoSignBit | src/main/java/org/openhab/binding/rflink/messages/RfLinkTemperatureMessage.java:53 | bit 15 is no sign for this family: `80C0` reads as 3296.0 |
| TemperatureMessage.ReportedTemperature | src/main/java/org/openhab/binding/rflink/messages/RfLinkTemperatureMessage.java:38-55 | end to end: a gateway line with a TEMP field gives a new message the temperature the sensor encoded |
| TemperatureMessage.TemperatureMessage.constructor | src/main/java/org/openhab/binding/rflink/messages/RfLinkTemperatureMessage.java:32-36 | a new message holds temperature 0 |
| TemperatureMessage.TemperatureMessage.EncodeMessage | src/main/java/org/openhab/binding/rflink/messages/RfLinkTemperatureMessage.java:47-55 | the base parse, then the family decode on its field map; each step's error is the outcome |
| HumidityMessage.Decode | src/main/java/org/openhab/binding/rflink/messages/RfLinkHumidityMessage.java:48-55 | the decode fails, with the number-format error, exactly when HUM is present and is not decimal; without HUM the reading is kept |
| HumidityMessage.States | src/main/java/org/openhab/binding/rflink/messages/RfLinkHumidityMessage.java:62-69 | the humidity channel alone is reported |
| HumidityMessage.DecodeFormatted | src/main/java/org/openhab/binding/rflink/messages/RfLinkHumidityMessage.java:52-54 | round trip: a humidity written in decimal decodes back to itself |
| HumidityMessage.HumidityMessage.constructor | src/main/java/org/openhab/binding/rflink/messages/RfLinkHumidityMessage.java:34-37 | a new message holds humidity 0 |
| HumidityMessage.HumidityMessage.EncodeMessage | src/main/java/org/openhab/binding/rflink/messages/RfLinkHumidityMessage.java:48-55 | the base parse, then the family decode on its field map; each step's error is the outcome |
| HumidityMessage.HumidityMessage.InitializeFromChannel | src/main/java/org/openhab/binding/rflink/messages/RfLinkHumidityMessage.java:81-85 | transmission is always refused with the not-implemented error |
| RainMessage.Decode | src/main/java/org/openhab/binding/rflink/messages/RfLinkRainMessage.java:42-55 | the decode fails, with the number-format error, exactly when RAIN or RAINRATE is present and is not hexadecimal; with neither the reading is kept |
| RainMessage.States | src/main/java/org/openhab/binding/rflink/messages/RfLinkRainMessage.java:62-72 | exactly the rain total and the rain rate are reported |
| RainMessage.DecodedStates | src/main/java/org/openhab/binding/rflink/messages/RfLinkRainMessage.java:42-72 | after a decode, the total and rate channels carry the hex RAIN and RAINRATE values in tenths, or the previous values when the key is absent |
| RainMessage.DecodeFormatted | src/main/java/org/openhab/binding/rflink/messages/RfLinkRainMessage.java:47-49 | round trip: the hex RAIN value decodes back to the total, the rain-total channel shows it in tenths, and alone it leaves the rate unchanged |
| RainMessage.DecodeRateFormatted | src/main/java/org/openhab/binding/rflink/messages/RfLinkRainMessage.java:51-53 | round trip: the hex RAINRATE value decodes back to the rate, the rain-rate channel shows it in tenths, and alone it leaves the total unchanged |
| RainMessage.RainMessage.constructor | src/main/java/org/openhab/binding/rflink/messages/RfLinkRainMessage.java:31-36 | a new message holds 0 and 0 |
| RainMessage.RainMessage.EncodeMessage | src/main/java/org/openhab/binding/rflink/messages/RfLinkRainMessage.java:42-55 | the base parse, then the family decode on its field map; each step's error is the outcome |
| EnergyMessage.Decode | src/main/java/org/openhab/binding/rflink/messages/RfLinkEnergyMessage.java:69-85 | the decode fails, with the number-format error, exactly when WATT or KWATT is present and is not hexadecimal |
| EnergyMessage.DecodeKeepsConsistent | src/main/java/org/openhab/binding/rflink/messages/RfLinkEnergyMessage.java:74-83 | every current is its power divided by 230: true of the defaults and kept by every decode |
| EnergyMessage.DecodeFormatted | src/main/java/org/openhab/binding/rflink/messages/RfLinkEnergyMessage.java:75-78 | round trip: a hex WATT value sets the power and the amps at 230 V, and alone leaves the totals unchanged |
| EnergyMessage.DecodeAbsent | src/main/java/org/openhab/binding/rflink/messages/RfLinkEnergyMessage.java:69-85 | without WATT and KWATT all four readings are kept |
| EnergyMessage.States | src/main/java/org/openhab/binding/rflink/messages/RfLinkEnergyMessage.java:92-104 | exactly the four energy channels are reported, power and usage as read |
| EnergyMessage.DecodedStates | src/main/java/org/openhab/binding/rflink/messages/RfLinkEnergyMessage.java:69-104 | after a decode, instant power is the WATT value and its amps that power over 230; total usage is the KWATT value and its amps that usage over 230; absent keys keep the previous values |
| EnergyMessage.EnergyMessage.constructor | src/main/java/org/openhab/binding/rflink/messages/RfLinkEnergyMessage.java:38-45 | a new message holds four zero readings |
| EnergyMessage.EnergyMessage.EncodeMessage | src/main/java/org/openhab/binding/rflink/messages/RfLinkEnergyMessage.java:69-85 | the base parse, then the family decode on its field map; each step's error is the outcome |
| EnergyMessage.EnergyMessage.InitializeFromChannel | src/main/java/org/openhab/binding/rflink/messages/RfLinkEnergyMessage.java:106-110 | transmission is always refused with the not-implemented error |
| WindMessage.DecodeFirst | src/main/java/org/openhab/binding/rflink/messages/RfLinkWindMessage.java:50-60 | WINSP, AWINSP and WINDIR fail the decode, with the number-format error, exactly when one is present and does not parse |
| WindMessage.DecodeSecond | src/main/java/org/openhab/binding/rflink/messages/RfLinkWindMessage.java:62-72 | WDIR, WINGS and WINCHL fail the decode, with the number-format error, exactly when one is present and does not parse |
| WindMessage.Decode | src/main/java/org/openhab/binding/rflink/messages/RfLinkWindMessage.java:45-74 | the six fields fail the decode exactly when one of the two halves fails |
| WindMessage.DirectionPrecedence | src/main/java/org/openhab/binding/rflink/messages/RfLinkWindMessage.java:58-64 | WDIR, read after WINDIR, decides the direction whenever present; WINDIR decides it only without WDIR; with neither it is kept |
| WindMessage.OverriddenDirectionStillChecked | src/main/java/org/openhab/binding/rflink/messages/RfLinkWindMessage.java:58-64 | a WINDIR that its decoder rejects fails the decode even when WDIR overrides it |
| WindMessage.DecodeSpeeds | src/main/java/org/openhab/binding/rflink/messages/RfLinkWindMessage.java:50-56 | WINSP is read as a raw hex number and AWINSP as hex tenths; an absent WINGS keeps the gust |
| WindMessage.WindMessage.constructor | src/main/java/org/openhab/binding/rflink/messages/RfLinkWindMessage.java:31-39 | a new message holds five zero readings |
| WindMessage.WindMessage.EncodeMessage | src/main/java/org/openhab/binding/rflink/messages/RfLinkWindMessage.java:45-74 | the base parse, then the family decode on its field map; each step's error is the outcome |
| WindMessage.WindMessage.DecodeFirstFields | src/main/java/org/openhab/binding/rflink/messages/RfLinkWindMessage.java:50-60 | the first three statements set the fields to the first half's result, or stop with its error |
| WindMessage.WindMessage.DecodeSecondFields | src/main/java/org/openhab/binding/rflink/messages/RfLinkWindMessage.java:62-72 | the last three statements set the fields to the second half's result, or stop with its error |
| WH1080WeatherStationMessage.DecodeClimate | src/main/java/org/openhab/binding/rflink/messages/RfLinkWH1080WeatherStationMessage.java:115-125 | TEMP, HUM and RAIN fail the decode, with the number-format error, exactly when one is present and does not parse; the battery is untouched |
| WH1080WeatherStationMessage.DecodeWind | src/main/java/org/openhab/binding/rflink/messages/RfLinkWH1080WeatherStationMessage.java:127-139 | WINSP, WINDIR and WINGS fail the decode exactly when one is present and does not parse; temperature and rain are untouched |
| WH1080WeatherStationMessage.Decode | src/main/java/org/openhab/binding/rflink/messages/RfLinkWH1080WeatherStationMessage.java:112-151 | the decode fails exactly when the climate or the wind fields fail, always with the number-format error |
| WH1080WeatherStationMessage.RainNotDivided | src/main/java/org/openhab/binding/rflink/messages/RfLinkWH1080WeatherStationMessage.java:123-125 | RAIN is the raw hex count, reported undivided |
| WH1080WeatherStationMessage.DirectionAndTemperature | src/main/java/org/openhab/binding/rflink/messages/RfLinkWH1080WeatherStationMessage.java:115-117 | the compass index i reports i times 22.5 degrees, and a signed TEMP keeps its sign |
| WH1080WeatherStationMessage.DecodeBattery | src/main/java/org/openhab/binding/rflink/messages/RfLinkWH1080WeatherStationMessage.java:141-150 | BAT is OFF for `OK` and ON for `LOW`, in any case, UNKNOWN otherwise, and kept when absent |
| WH1080WeatherStationMessage.States | src/main/java/org/openhab/binding/rflink/messages/RfLinkWH1080WeatherStationMessage.java:158-171 | the six measurements are always reported; lowBattery exactly when the battery status is known |
| WH1080WeatherStationMessage.DecodedStates | src/main/java/org/openhab/binding/rflink/messages/RfLinkWH1080WeatherStationMessage.java:112-171 | after a decode, temperature is the sign-magnitude TEMP in tenths, humidity the decimal HUM, rain and wind speed and gust the hex values, direction the WINDIR index times 22.5 degrees, each the previous value when its key is absent |
| WH1080WeatherStationMessage.WH1080WeatherStationMessage.constructor | src/main/java/org/openhab/binding/rflink/messages/RfLinkWH1080WeatherStationMessage.java:48-54 | a new message holds the field defaults |
| WH1080WeatherStationMessage.WH1080WeatherStationMessage.EncodeMessage | src/main/java/org/openhab/binding/rflink/messages/RfLinkWH1080WeatherStationMessage.java:112-151 | the base parse, then the family decode on its field map; each step's error is the outcome |
| WH1080WeatherStationMessage.WH1080WeatherStationMessage.DecodeFields | src/main/java/org/openhab/binding/rflink/messages/RfLinkWH1080WeatherStationMessage.java:115-150 | the family statements set the fields to the decode's result, or stop with its error |
| WH1080WeatherStationMessage.WH1080WeatherStationMessage.DecodeClimateFields | src/main/java/org/openhab/binding/rflink/messages/RfLinkWH1080WeatherStationMessage.java:115-125 | the TEMP, HUM and RAIN statements set the fields to the climate decode's result, or stop with its error |
| WH1080WeatherStationMessage.WH1080WeatherStationMessage.DecodeWindFields | src/main/java/org/openhab/binding/rflink/messages/RfLinkWH1080WeatherStationMessage.java:127-139 | the WINSP, WINDIR and WINGS statements set the fields to the wind decode's result, or stop with its error |
| WH1080WeatherStationMessage.WH1080WeatherStationMessage.InitializeFromChannel | src/main/java/org/openhab/binding/rflink/messages/RfLinkWH1080WeatherStationMessage.java:186-190 | transmission is always refused with the not-implemented error |
| RtsMessage.RtsMessage.constructor | src/main/java/org/openhab/binding/rflink/messages/RfLinkRtsMessage.java:28-31 | a new message has the empty switch code |
| RtsMessage.RtsMessage.EncodeMessage | src/main/java/org/openhab/binding/rflink/messages/RfLinkRtsMessage.java:54-57 | only the base parse runs, and the switch code is never changed |
| RtsMessage.NewRtsMessage | src/main/java/org/openhab/binding/rflink/messages/RfLinkRtsMessage.java:33-68 | whatever the line, the device id is the base id followed by a trailing `-`, and the family reports no channel state (`States` is empty) |
| RawMessage.RawMessage.constructor | src/main/java/org/openhab/binding/rflink/messages/RfLinkRawMessage.java:23-25 | the line is stored verbatim, nothing is parsed, and `buildMessage` answers it for every suffix |
| RawMessage.RawMessage.EncodeMessage | src/main/java/org/openhab/binding/rflink/messages/RfLinkRawMessage.java:27-30 | the stored line is replaced and the header and field map are untouched |
| RawMessage.Ping | src/main/java/org/openhab/binding/rflink/messages/RfLinkRawMessage.java:18 | the keep-alive message builds exactly `10;PING;` |
| ColorMessage.TwoHexDigits | src/main/java/org/openhab/binding/rflink/messages/RfLinkColorMessage.java:88-89 | two characters parsed as hex lie between -15 and 255 |
| ColorMessage.DecodeRgbw | src/main/java/org/openhab/binding/rflink/messages/RfLinkColorMessage.java:86-92 | a decoded RGBW value is a valid colour with hue below 360 and saturation 100; a value shorter than two characters is the substring's index error |
| ColorMessage.ApplyCmd | src/main/java/org/openhab/binding/rflink/messages/RfLinkColorMessage.java:95-117 | the CMD switch fails (null colour) exactly for BRIGHT or COLOR without a colour, and never creates or drops the colour |
| ColorMessage.CmdEffects | src/main/java/org/openhab/binding/rflink/messages/RfLinkColorMessage.java:95-117 | OFF switches off; ON and ALLOFF switch on; ALLON switches on with saturation 0; BRIGHT and COLOR set saturation 100; any other text changes nothing |
| ColorMessage.CmdReported | src/main/java/org/openhab/binding/rflink/messages/RfLinkColorMessage.java:95-139 | what the colour channel reports after each CMD: OFF gives brightness 0, ON and ALLOFF the colour, ALLON saturation 0, BRIGHT and COLOR saturation 100 with brightness only when switched on |
| ColorMessage.CommandColorSteps | src/main/java/org/openhab/binding/rflink/messages/RfLinkColorMessage.java:149-185 | an outbound command keeps the colour valid; INCREASE and DECREASE move the brightness by at most 10 in their direction and keep hue and saturation; a percent sets the brightness |
| ColorMessage.IncreaseSaturates | src/main/java/org/openhab/binding/rflink/messages/RfLinkColorMessage.java:174-180 | INCREASE from brightness 90 or more gives exactly 100 |
| ColorMessage.HueByte | src/main/java/org/openhab/binding/rflink/messages/RfLinkColorMessage.java:205 | the outbound hue byte lies in 0..254 |
| ColorMessage.BrightnessByte | src/main/java/org/openhab/binding/rflink/messages/RfLinkColorMessage.java:205-206 | the outbound brightness byte lies in 0..255 |
| ColorMessage.FormatByte | src/main/java/org/openhab/binding/rflink/messages/RfLinkColorMessage.java:205 | a byte formatted with `%02X` is two hex digits that parse back to it |
| ColorMessage.DecodeBytes | src/main/java/org/openhab/binding/rflink/messages/RfLinkColorMessage.java:86-92 | four characters whose halves parse to two bytes decode to the hue and brightness the inbound formula gives |
| ColorMessage.BrightnessBack | src/main/java/org/openhab/binding/rflink/messages/RfLinkColorMessage.java:206 | a brightness scaled to a byte and back loses at most one percent |
| ColorMessage.AngleBack | src/main/java/org/openhab/binding/rflink/messages/RfLinkColorMessage.java:205 | an angle scaled to a byte and back loses at most two degrees |
| ColorMessage.HueBack | src/main/java/org/openhab/binding/rflink/messages/RfLinkColorMessage.java:205 | the hue through the outbound offset and byte and back through the inbound offset is within two degrees below the original, modulo 360 |
| ColorMessage.HexPair | src/main/java/org/openhab/binding/rflink/messages/RfLinkColorMessage.java:205 | two bytes formatted side by side are four hex digits whose halves parse back to the bytes |
| ColorMessage.RgbwShape | src/main/java/org/openhab/binding/rflink/messages/RfLinkColorMessage.java:205-206 | the outbound RGBW value is four hex digits whose halves parse back to the hue and brightness bytes |
| ColorMessage.RgbwDecodes | src/main/java/org/openhab/binding/rflink/messages/RfLinkColorMessage.java:86-92 | the inbound decoder applied to the outbound RGBW value gives the colour computed from the two bytes |
| ColorMessage.RgbwRoundTrip | src/main/java/org/openhab/binding/rflink/messages/RfLinkColorMessage.java:86-92 | round trip: the inbound decoder reads the outbound RGBW value back, brightness within one percent and hue within two degrees below |
| ColorMessage.WireCommandPriority | src/main/java/org/openhab/binding/rflink/messages/RfLinkColorMessage.java:208-226 | the wire command by priority: OFF for an OFF command or brightness 0, ALLON below saturation 25, COLOR for an HSB command, BRIGHT for a percent or a step, ON otherwise; a second frame goes with ALLON and COLOR only |
| ColorMessage.FramesConcatenate | src/main/java/org/openhab/binding/rflink/messages/RfLinkColorMessage.java:228-236 | the bytes start with the command frame and grow by the BRIGHT frame exactly when one is due |
| ColorMessage.ColorCache.constructor | src/main/java/org/openhab/binding/rflink/messages/RfLinkColorMessage.java:53 | the shared cache starts empty |
| ColorMessage.ColorMessage.constructor | src/main/java/org/openhab/binding/rflink/messages/RfLinkColorMessage.java:49-56 | a new message has no command, no colour and no on/off state |
| ColorMessage.ColorMessage.EncodeMessage | src/main/java/org/openhab/binding/rflink/messages/RfLinkColorMessage.java:77-118 | the base parse, with the header's sequence number, device name and id; a SWITCH value appended to the device id; the colour decoded and cached under that id; the CMD applied; each step's error is the outcome |
| ColorMessage.ColorMessage.DecodeInbound | src/main/java/org/openhab/binding/rflink/messages/RfLinkColorMessage.java:86-117 | the RGBW, cache and CMD statements leave the state the inbound specification gives, and keep every cached colour valid |
| ColorMessage.ColorMessage.InitializeFromChannel | src/main/java/org/openhab/binding/rflink/messages/RfLinkColorMessage.java:141-187 | the command is kept, and the device's cached colour is changed by it and written back |
| ColorMessage.ColorMessage.DecodeMessage | src/main/java/org/openhab/binding/rflink/messages/RfLinkColorMessage.java:189-238 | nothing without a command; otherwise the colour (H0 S0 B100 when there is none) is sent as the frames of its wire command |
| MessageFactory.PutKeysContents | src/main/java/org/openhab/binding/rflink/messages/RfLinkMessageFactory.java:47-49 | putting a family's keys adds exactly those keys, each mapped to the family, and keeps every other entry |
| MessageFactory.LastDeclaring | src/main/java/org/openhab/binding/rflink/messages/RfLinkMessageFactory.java:33-40 | the family a key is attributed to declares that key |
| MessageFactory.RegistrationLaterWins | src/main/java/org/openhab/binding/rflink/messages/RfLinkMessageFactory.java:33-50 | registration maps exactly the keys some registered family declares, and a key declared twice goes to the later family |
| MessageFactory.ThingTypeLaterWins | src/main/java/org/openhab/binding/rflink/messages/RfLinkMessageFactory.java:33-50 | a thing type goes to the last family registered with it |
| MessageFactory.LastDeclaringSome | src/main/java/org/openhab/binding/rflink/messages/RfLinkMessageFactory.java:33-50 | a key is attributed to a family exactly when some registered family declares it |
| MessageFactory.RegisteredKeys | src/main/java/org/openhab/binding/rflink/messages/RfLinkMessageFactory.java:33-50 | after the initialiser the key table holds exactly the fourteen keys, each mapped to a family that declares it |
| MessageFactory.RegisteredThingTypes | src/main/java/org/openhab/binding/rflink/messages/RfLinkMessageFactory.java:33-50 | after the initialiser energy, switch, temperature and rts map to their families; the null thing type belongs to Rain, registered after Wind, and no entry maps to Wind |
| MessageFactory.Instantiate | src/main/java/org/openhab/binding/rflink/messages/RfLinkMessageFactory.java:63-65 | the family object built from a line keeps the line, and is built without error exactly when the frame parses and the family's decode accepts its fields; it then holds the frame's fields and header (sequence number, device name and id) and its family's decode of the fields from the defaults (`Decoded`) |
| MessageFactory.MessageFactory.constructor | src/main/java/org/openhab/binding/rflink/messages/RfLinkMessageFactory.java:33-40 | the tables hold what registering the six families in order gives |
| MessageFactory.MessageFactory.AddMappingOfClass | src/main/java/org/openhab/binding/rflink/messages/RfLinkMessageFactory.java:42-56 | the loop maps every key of the family to it, then the family's thing type |
| MessageFactory.MessageFactory.CreateMessageFrom | src/main/java/org/openhab/binding/rflink/messages/RfLinkMessageFactory.java:58-73 | not-implemented exactly when no field key is known and the message has a raw line, a NullPointerException when it has none; otherwise a family picked by some known key, built from the same line, or the link error when it cannot be built; a returned message holds its family's decode of the raw line (`Decoded`) |
| MessageFactory.MessageFactory.CreateMessage | src/main/java/org/openhab/binding/rflink/messages/RfLinkMessageFactory.java:75-78 | the base parse's errors reach the caller; a parsed line is not-implemented exactly when no field key is known, otherwise a family named by a known key holding the line's header and its family's decode of the line, or the link error when that family cannot be built (`Classified`); a short or non-gateway line is not-implemented |
| MessageFactory.MessageFactory.CreateMessageForSendingToThing | src/main/java/org/openhab/binding/rflink/messages/RfLinkMessageFactory.java:80-92 | a new, empty object of the family registered for the thing type, or null exactly when no family is registered for it |
| MessageFactory.UniqueClassification | src/main/java/org/openhab/binding/rflink/messages/RfLinkMessageFactory.java:58-73 | a frame whose known keys all belong to one family is always classified as that family, whatever the iteration order |
| MessageFactory.KeysOfRegistered | src/main/java/org/openhab/binding/rflink/messages/RfLinkMessageFactory.java:33-40 | every key a registered family declares is in the key table |
| MessageFactory.KeysDisjoint | src/main/java/org/openhab/binding/rflink/messages/RfLinkMessageFactory.java:33-40 | no key is declared by two families, so the registration order never decides a key |
| BridgeHandler.FirstFailure | src/main/java/org/openhab/binding/rflink/handler/RfLinkBridgeHandler.java:72-78 | the first queued message whose send throws: every message before it is sent without error |
| BridgeHandler.TransmitQueue.constructor | src/main/java/org/openhab/binding/rflink/handler/RfLinkBridgeHandler.java:58-59 | the transmit queue starts empty, with nothing sent |
| BridgeHandler.TransmitQueue.Send | src/main/java/org/openhab/binding/rflink/handler/RfLinkBridgeHandler.java:72-78 | the queue is drained in FIFO order up to the first failed send; the message of a failed send is lost and the rest stay queued; the I/O error is the outcome |
| BridgeHandler.TransmitQueue.Enqueue | src/main/java/org/openhab/binding/rflink/handler/RfLinkBridgeHandler.java:61-70 | a full queue drops the message; a non-empty queue appends it; an empty queue appends it and drains, so it is sent at once or its send fails |
| BridgeHandler.DrainCompletes | src/main/java/org/openhab/binding/rflink/handler/RfLinkBridgeHandler.java:72-78 | a drain empties the queue exactly when every queued message can be sent; otherwise the lost message was never handed over earlier in the same drain |
| BridgeHandler.Bridge.constructor | src/main/java/org/openhab/binding/rflink/handler/RfLinkBridgeHandler.java:50-83 | a new bridge has no listeners, an empty transmit queue and no deliveries |
| BridgeHandler.Bridge.RegisterDeviceStatusListener | src/main/java/org/openhab/binding/rflink/handler/RfLinkBridgeHandler.java:202-208 | null is an illegal argument; a listener already present is refused with false; any other is appended with true; the list never holds a duplicate |
| BridgeHandler.Bridge.UnregisterDeviceStatusListener | src/main/java/org/openhab/binding/rflink/handler/RfLinkBridgeHandler.java:210-215 | null is an illegal argument; otherwise the list is `List.remove` of the listener, so the listener is gone, the others stay in their order, and the answer says whether it was there |
| BridgeHandler.Bridge.SendMessage | src/main/java/org/openhab/binding/rflink/handler/RfLinkBridgeHandler.java:158-167 | the message goes through the transmit queue: a full queue drops it, a non-empty one keeps it waiting at the end, an empty one sends it at once; the outcome is the I/O failure of that send, and success otherwise |
| BridgeHandler.Bridge.PacketReceived | src/main/java/org/openhab/binding/rflink/handler/RfLinkBridgeHandler.java:172-193 | the answer is the factory's classification of the line (`Classified` over the bridge's key table): the base parse's error, not-implemented exactly when no key is known, or a message of a family named by a known key holding the decode of the line; that message is handed to every listener in list order, and a failing line reaches nobody |
| BridgeHandler.Bridge.Deliver | src/main/java/org/openhab/binding/rflink/handler/RfLinkBridgeHandler.java:178-184 | the loop hands the message to every listener, in list order, and leaves the list unchanged |
| BridgeHandler.Deliveries | src/main/java/org/openhab/binding/rflink/handler/RfLinkBridgeHandler.java:178-184 | one delivery per listener, in list order, each with the same message |
| BridgeHandler.DeliveriesAppend | src/main/java/org/openhab/binding/rflink/handler/RfLinkBridgeHandler.java:178-184 | one more listener adds exactly one delivery at the end |
| BridgeHandler.RemoveDistinct | src/main/java/org/openhab/binding/rflink/handler/RfLinkBridgeHandler.java:210-215 | on a list without duplicates, removal takes out exactly that listener, shortens the list by one when it was there, and keeps it free of duplicates |
| BridgeHandler.RemoveAt | src/main/java/org/openhab/binding/rflink/handler/RfLinkBridgeHandler.java:210-215 | removal closes the list up around the first occurrence of the listener, keeping the others in order |
| BridgeHandler.RemoveAbsent | src/main/java/org/openhab/binding/rflink/handler/RfLinkBridgeHandler.java:210-215 | removing a listener that is not there leaves the list unchanged |
| TypeUtils.GroupsListed | src/main/java/org/openhab/binding/rflink/type/RfLinkTypeUtils.java:43-46 | the two declared synonym groups hold exactly the UP-like and the DOWN-like constants |
| TypeUtils.SynonymIndexMatchesGroups | src/main/java/org/openhab/binding/rflink/type/RfLinkTypeUtils.java:58-63 | every member of a declared group maps to that group, and only those types have a group |
| TypeUtils.SupportedAreConstants | src/main/java/org/openhab/binding/rflink/type/RfLinkTypeUtils.java:40-55 | the supported set is exactly the twelve declared constants: both groups, the antonyms and MOVE/STOP |
| TypeUtils.FirstOfKind | src/main/java/org/openhab/binding/rflink/type/RfLinkTypeUtils.java:83-87 | a synonym found by the scan is a member of the list and of the class asked for |
| TypeUtils.SynonymOfIsScan | src/main/java/org/openhab/binding/rflink/type/RfLinkTypeUtils.java:80-90 | getSynonym is the first group member of the class asked for, and UNDEF for a type without group |
| TypeUtils.SynonymIsMember | src/main/java/org/openhab/binding/rflink/type/RfLinkTypeUtils.java:80-90 | a synonym other than UNDEF lies in the type's own group and has the class asked for |
| TypeUtils.SynonymExists | src/main/java/org/openhab/binding/rflink/type/RfLinkTypeUtils.java:80-90 | when the group has a member of the class asked for, getSynonym finds exactly that member |
| TypeUtils.SynonymOfOwnKind | src/main/java/org/openhab/binding/rflink/type/RfLinkTypeUtils.java:80-90 | a grouped type is its own synonym of its own class |
| TypeUtils.GetSynonym | src/main/java/org/openhab/binding/rflink/type/RfLinkTypeUtils.java:80-90 | the loop returns the specified synonym |
| TypeUtils.UndefIsSynonymOfEverything | src/main/java/org/openhab/binding/rflink/type/RfLinkTypeUtils.java:92-98 | as written, UNDEF counts as a synonym of every type, e.g. of DOWN and of OFF, although not the other way round |
| TypeUtils.IsSynonymIsSameGroup | src/main/java/org/openhab/binding/rflink/type/RfLinkTypeUtils.java:92-98 | corrected: two types are synonyms exactly when both are in the same declared group |
| TypeUtils.IsSynonymSymmetric | src/main/java/org/openhab/binding/rflink/type/RfLinkTypeUtils.java:92-98 | the corrected synonym test is symmetric |
| TypeUtils.IsSynonymAgrees | src/main/java/org/openhab/binding/rflink/type/RfLinkTypeUtils.java:92-98 | for every candidate other than UNDEF the corrected test answers as the source does |
| TypeUtils.GetAntonym | src/main/java/org/openhab/binding/rflink/type/RfLinkTypeUtils.java:100-102 | an antonym exists exactly for the members of the two groups |
| TypeUtils.AntonymInvolution | src/main/java/org/openhab/binding/rflink/type/RfLinkTypeUtils.java:100-102 | the antonym of the antonym is the type itself |
| TypeUtils.AntonymSwapsGroups | src/main/java/org/openhab/binding/rflink/type/RfLinkTypeUtils.java:48-52 | the antonym moves a type to the other group, keeps its class and differs from it |
| TypeUtils.GroupMembers | src/main/java/org/openhab/binding/rflink/type/RfLinkTypeUtils.java:43-46 | the first member of each class in each group is the declared member of that class |
| TypeUtils.UpGroupMembers | src/main/java/org/openhab/binding/rflink/type/RfLinkTypeUtils.java:43-44 | the UP-like group has one member per class, in declaration order |
| TypeUtils.DownGroupMembers | src/main/java/org/openhab/binding/rflink/type/RfLinkTypeUtils.java:45-46 | the DOWN-like group has one member per class, in declaration order |
| TypeUtils.GroupMembership | src/main/java/org/openhab/binding/rflink/type/RfLinkTypeUtils.java:43-46 | a type is in a group exactly when it is that group's member of its class |
| TypeUtils.AntonymOfSynonym | src/main/java/org/openhab/binding/rflink/type/RfLinkTypeUtils.java:80-102 | taking the antonym commutes with taking a synonym of a class present in both groups |
| TypeUtils.MemberAntonyms | src/main/java/org/openhab/binding/rflink/type/RfLinkTypeUtils.java:48-52 | the antonym of each group member is the other group's member of the same class |
| TypeUtils.TypeNamed | src/main/java/org/openhab/binding/rflink/type/RfLinkTypeUtils.java:104-111 | a type found by name is a declared constant with that name |
| TypeUtils.TypeNamedRoundTrip | src/main/java/org/openhab/binding/rflink/type/RfLinkTypeUtils.java:104-111 | every declared constant is found again by its own name |
| TypeUtils.GetTypeFromStringValue | src/main/java/org/openhab/binding/rflink/type/RfLinkTypeUtils.java:104-111 | the loop over the supported set returns the constant of that name, or UNDEF |
| TypeUtils.UpDownClassification | src/main/java/org/openhab/binding/rflink/type/RfLinkTypeUtils.java:117-159 | corrected: DOWN-like types give DOWN, UP-like ones UP, a percent above 50 DOWN and below 50 UP, anything else (UNDEF included) UNDEF |
| TypeUtils.OnOffClassification | src/main/java/org/openhab/binding/rflink/type/RfLinkTypeUtils.java:129-159 | corrected: OFF-like types give OFF, ON-like ones ON, a percent above 50 OFF and below 50 ON, anything else (UNDEF included) UNDEF |
| TypeUtils.ClassificationAsWritten | src/main/java/org/openhab/binding/rflink/type/RfLinkTypeUtils.java:117-139 | as written, UNDEF classifies as DOWN and as OFF; on every other type the as-written and corrected classifications agree |
| TypeUtils.OnOffMatchesUpDown | src/main/java/org/openhab/binding/rflink/type/RfLinkTypeUtils.java:117-139 | the ON/OFF and UP/DOWN classifications agree on every input |
| TypeUtils.BoundDecimal | src/main/java/org/openhab/binding/rflink/type/RfLinkTypeUtils.java:165-177 | null stays null and a value stays a value |
| TypeUtils.BoundDecimalClamps | src/main/java/org/openhab/binding/rflink/type/RfLinkTypeUtils.java:165-177 | with ordered bounds the result lies within them; below gives min, above gives max, inside is unchanged |
| TypeUtils.BoundDecimalIdempotent | src/main/java/org/openhab/binding/rflink/type/RfLinkTypeUtils.java:165-177 | bounding twice equals bounding once |
| TypeUtils.Int32 | src/main/java/org/openhab/binding/rflink/type/RfLinkTypeUtils.java:192 | a Java int result lies in the 32-bit range and equals the value when it already fits |
| TypeUtils.ToDecimalType | src/main/java/org/openhab/binding/rflink/type/RfLinkTypeUtils.java:187-200 | null gives null; min not below max is an illegal argument; otherwise a value |
| TypeUtils.ToDecimalTypeRange | src/main/java/org/openhab/binding/rflink/type/RfLinkTypeUtils.java:187-200 | without overflow, a percent 0..100 maps into min..max, 0 onto min and 100 onto max |
| TypeUtils.ToDecimalTypeMonotone | src/main/java/org/openhab/binding/rflink/type/RfLinkTypeUtils.java:187-200 | without overflow, a larger percent never gives a smaller value |
| TypeUtils.DimmingOfScaledPercent | src/main/java/org/openhab/binding/rflink/type/RfLinkTypeUtils.java:187-210 | a percent scaled onto 0..100 reads back as ON exactly when it is positive |
| TypeUtils.TypeTables.constructor | src/main/java/org/openhab/binding/rflink/type/RfLinkTypeUtils.java:38-55 | the static block builds the synonym index, the antonym table and the supported set |
| TypeUtils.TypeTables.DeclareSynonymGroups | src/main/java/org/openhab/binding/rflink/type/RfLinkTypeUtils.java:43-46 | declaring both groups yields the group index and their members as supported |
| TypeUtils.TypeTables.DeclareAntonymPairs | src/main/java/org/openhab/binding/rflink/type/RfLinkTypeUtils.java:48-52 | declaring the five pairs yields the antonym table and leaves the rest alone |
| TypeUtils.TypeTables.DeclareSynonyms | src/main/java/org/openhab/binding/rflink/type/RfLinkTypeUtils.java:58-65 | each listed type maps to the one shared new group, and all are supported |
| TypeUtils.TypeTables.DeclareAntonyms | src/main/java/org/openhab/binding/rflink/type/RfLinkTypeUtils.java:67-72 | both directions are recorded and both types become supported |
| TypeUtils.TypeTables.DeclareSupportedTypes | src/main/java/org/openhab/binding/rflink/type/RfLinkTypeUtils.java:74-78 | the listed types are added to the supported set and nothing else changes |
| Channels.Tenths | src/main/java/org/openhab/binding/rflink/messages/RfLinkTemperatureMessage.java:53 | a reading kept in tenths is the decimal that, times ten, gives it back |
| JavaText.IndexOf | src/main/java/org/openhab/binding/rflink/messages/RfLinkBaseMessage.java:74 | the first position of the character, or -1 exactly when it does not occur |
| JavaText.StripTrailingEmpty | src/main/java/org/openhab/binding/rflink/messages/RfLinkBaseMessage.java:54 | trailing empty pieces are dropped, and only those |
| JavaText.PiecesNoDelimiter | src/main/java/org/openhab/binding/rflink/messages/RfLinkBaseMessage.java:54 | no piece of a split contains the delimiter |
| JavaText.JoinPieces | src/main/java/org/openhab/binding/rflink/messages/RfLinkBaseMessage.java:54 | joining the pieces with the delimiter gives the line back |
| JavaText.PiecesJoin | src/main/java/org/openhab/binding/rflink/messages/RfLinkBaseMessage.java:54 | splitting a join of delimiter-free pieces gives the pieces back |
| JavaText.SplitTerminated | src/main/java/org/openhab/binding/rflink/messages/RfLinkBaseMessage.java:54 | splitting a ';'-terminated line of non-empty-ended fields gives exactly those fields |
| JavaText.IgnoreCaseChars | src/main/java/org/openhab/binding/rflink/messages/RfLinkSwitchMessage.java:57 | a one-letter ignore-case comparison holds exactly when the letters are equal, or one is a lower-case ASCII letter and the other the upper-case letter 32 code points below it |
| JavaText.IgnoreCaseEquivalence | src/main/java/org/openhab/binding/rflink/messages/RfLinkSwitchMessage.java:57 | comparing ignoring case is reflexive, symmetric and transitive |
| JavaText.ParseInt | src/main/java/org/openhab/binding/rflink/messages/RfLinkBaseMessage.java:63 | a parsed value fits a Java int, and the empty string is a NumberFormatException |
| JavaText.ParseDigitsNonNegative | src/main/java/org/openhab/binding/rflink/messages/RfLinkBaseMessage.java:63 | a parse without sign gives a non-negative value |
| JavaText.ParseRejectsNonDigit | src/main/java/org/openhab/binding/rflink/messages/RfLinkBaseMessage.java:63 | a character outside the radix makes the parse fail |
| JavaText.FormatDigitsValue | src/main/java/org/openhab/binding/rflink/messages/RfLinkColorMessage.java:205 | formatting a number in a radix writes digits whose value is that number |
| JavaText.ParseFormatHex | src/main/java/org/openhab/binding/rflink/messages/RfLinkColorMessage.java:205 | a number formatted as zero-padded hexadecimal parses back to itself |
| JavaText.ParseFormatDecimal | src/main/java/org/openhab/binding/rflink/messages/RfLinkHumidityMessage.java:53 | a number formatted in decimal parses back to itself |
| JavaText.ToByte | src/main/java/org/openhab/binding/rflink/messages/RfLinkBaseMessage.java:63 | the byte cast lands in -128..127 and agrees with the value modulo 256 |
| JavaText.JavaDiv | src/main/java/org/openhab/binding/rflink/messages/RfLinkColorMessage.java:90-91 | the quotient truncates toward zero: the remainder has the dividend's sign and lies strictly below the divisor in size |

## Left out

- Serial I/O, connecting, disposing, initialising and status updates of the bridge are not modelled. The outcome of a gateway send is the parameter `sendOk`, and `buildMessages`/`sendMessages` are left out, because the connector is hardware I/O.
- Concurrency is not modelled: `synchronized` and the `CopyOnWriteArrayList` of listeners. Every operation runs to completion on its own.
- BridgeHandler.Bridge.PacketReceived: a listener that throws is modelled as a delivery that does not stop the next one. What a listener does with a message is not modelled.
- Logging and `toString` are not modelled, because they have no effect on the protocol state.
- Floating point is not modelled. Readings that Java divides by `10.0f` are kept as exact tenths (`Channels.Tenths`), and Energy's `/ 230F` is an exact real. The rounding of `float` and `double` is therefore not captured.
- ColorMessage.Hsb and TypeUtils.Type: hue, saturation, brightness, percent and decimal values are whole numbers. HSBType, PercentType and DecimalType hold `BigDecimal` values, and fractional ones are not modelled. Where the source reads `intValue()` the answer is the same. Where it reads `floatValue()`, as the brightness byte of RfLinkColorMessage.java:205-212 does, a fractional brightness such as 0.5 gives byte 1 while the OFF test sees 0; the model cannot express that input.
- ColorMessage.BrightnessByte: the brightness goes through `floatValue() * 255 / 100`. On every whole percent the truncated float product equals the integer `b * 255 / 100` the model uses. Only fractional brightnesses, which are not modelled, would differ.
- WindMessage.Decode: `RfLinkDataParser.parseWindDirection` and `parseTemperature` are not defined in RfLinkDataParser.java. They are the `parsers` parameter, and any string they reject stands for their exception.
- WindMessage: the family has no `getStates` of its own, so it inherits the base message's `null`. The model gives it no `States`.
- ColorMessage.ColorMessage.DecodeMessage: `super.decodeMessage` is not defined in RfLinkBaseMessage.java. The frame it builds from a suffix is the `frame` parameter.
- ColorMessage.ColorMessage.InitializeFromChannel: `super.initializeFromChannel` is not defined in RfLinkBaseMessage.java. The base part is not modelled; only the colour state and command that the family sets are modelled.
- The base `initializeFromChannel` of the other families (device id from the thing configuration) is not part of this model, for the same reason.
- RfLinkBase.BaseMessage.EncodeMessage: when Java throws part-way through a line, the fields stored before the exception stay set. On an error the contract states the outcome and the raw line only, and says nothing about the other fields.
- `equalsIgnoreCase` is modelled with ASCII case folding only. Unicode folding, such as the Kelvin sign, is not modelled.
- MessageFactory.MessageFactory.CreateMessageForSendingToThing: a `null` thing type cannot occur, because strings are values here.
- MessageFactory.MessageFactory.CreateMessageFrom: the iteration order of Java's `HashMap` key set is not modelled. The first key found is any key of the line, chosen nondeterministically.
- WH1080WeatherStationMessage.WH1080WeatherStationMessage.constructor: the source declares only the constructor that takes a line. The model starts from the field defaults, which is what that constructor does before parsing.
- JavaText.ParseInt: digits are ASCII only; the other Unicode digits `Character.digit` accepts (Arabic-Indic, for example) are not modelled.
- TypeUtils.ToDecimalTypeRange: the range is proved only when `(max - min) * 100` fits a Java `int`. Outside that, the overflow is modelled by `Int32`, but nothing is claimed about the result.

## Findings

| source | as written | input that shows it | evidently intended | confidence | as-written member | corrected member |
|---|---|---|---|---|---|---|
| src/main/java/org/openhab/binding/rflink/type/RfLinkTypeUtils.java:92-98 | `isSynonym` compares the candidate with `getSynonym`, whose "not found" answer is `UNDEF`, so `UNDEF` is a synonym of every type | `isSynonym(DOWN, UNDEF)` is true, so `getUpDownTypeFromType(UNDEF)` gives `DOWN` and `getOnOffTypeFromType(UNDEF)` gives `OFF` | two types are synonyms only when they are in the same declared group, and `UNDEF` classifies as `UNDEF` | not executed | TypeUtils.UndefIsSynonymOfEverything | TypeUtils.IsSynonymIsSameGroup |
| src/main/java/org/openhab/binding/rflink/type/RfLinkTypeUtils.java:117-139 | `getUpDownTypeFromType` and `getOnOffTypeFromType` test `isSynonym` first, which accepts `UNDEF` for every group | `getUpDownTypeFromType(UNDEF)` gives `DOWN`, `getOnOffTypeFromType(UNDEF)` gives `OFF` | `UNDEF` classifies as `UNDEF` | not executed | TypeUtils.ClassificationAsWritten | TypeUtils.UpDownClassification |
