/** RfLinkSwitchMessage: an on/off command (CMD) sent by a switch (SWITCH) of a device. */
module SwitchMessage {
  import opened Common
  import opened JavaText
  import opened Channels
  import opened RfLinkBase
  import opened OnOffCommands

  const KeySwitch: string := "SWITCH"
  const KeyCmd: string := "CMD"

  /** `keys()`. */
  const Keys: seq<string> := [KeySwitch, KeyCmd]

  /** `getThingType()`. */
  const ThingType: string := "switch"

  /** The family's fields: `switchCode` and `command`. */
  datatype Reading = Reading(switchCode: string, command: Command)

  const Default: Reading := Reading("", Off)

  /**
   * The family part of `encodeMessage`: CMD is looked up case-insensitively and an unknown text
   * is caught as UNKNOWN, so the family part never fails; SWITCH is taken as it is.
   */
  function Decode(values: map<string, string>, prev: Reading): Reading
  {
    var command := if KeyCmd in values then CommandOf(SwitchTexts, values[KeyCmd]) else prev.command;
    var switchCode := if KeySwitch in values then values[KeySwitch] else prev.switchCode;
    Reading(switchCode, command)
  }

  /**
   * What a decode sets: the command is ON or OFF exactly when CMD spells it in any case, and
   * UNKNOWN for any other CMD; without CMD the command is kept; the switch code is the SWITCH
   * value or is kept.
   */
  lemma DecodeCommand(values: map<string, string>, prev: Reading)
    ensures var r := Decode(values, prev);
      && (KeyCmd !in values ==> r.command == prev.command)
      && (KeyCmd in values ==>
            && (r.command == On <==> EqualsIgnoreCase(values[KeyCmd], "ON"))
            && (r.command == Off <==> EqualsIgnoreCase(values[KeyCmd], "OFF")))
      && (KeySwitch in values ==> r.switchCode == values[KeySwitch])
      && (KeySwitch !in values ==> r.switchCode == prev.switchCode)
  {
    if KeyCmd in values {
      SwitchCommandText(values[KeyCmd]);
    }
  }

  /** A fresh message without CMD reports OFF, and without SWITCH has the empty switch code. */
  lemma DecodeDefaults(values: map<string, string>)
    requires KeyCmd !in values && KeySwitch !in values
    ensures Decode(values, Default) == Reading("", Off)
    ensures States(Decode(values, Default)) == map[CommandChannel := OnOffState(false)]
  {
  }

  /** `getStates()`: the command channel exactly when the command is ON or OFF. */
  function States(r: Reading): (m: map<string, State>)
    ensures CommandChannel in m <==> r.command != Unknown
    ensures m.Keys <= {CommandChannel}
    ensures CommandChannel in m ==> m[CommandChannel] == OnOffState(r.command == On)
  {
    match OnOffOf(r.command)
    case None => map[]
    case Some(on) => map[CommandChannel := OnOffState(on)]
  }

  class SwitchMessage {
    const base: BaseMessage
    var switchCode: string
    var command: Command

    /** `new RfLinkSwitchMessage()`: nothing parsed, the empty switch code, command OFF. */
    constructor ()
      ensures fresh(base) && Current() == Default
      ensures base.rawMessage == None && base.values == map[]
      ensures base.seqNbr == 0 && base.deviceName == None && base.deviceId == None
    {
      base := new BaseMessage();
      switchCode := "";
      command := Off;
    }

    function Current(): Reading
      reads this
    {
      Reading(switchCode, command)
    }

    /** `getDeviceId()`: the base id, `-`, the switch code. */
    function DeviceId(): string
      reads this, base
    {
      base.DeviceId() + IdDelimiter + switchCode
    }

    /** `encodeMessage(data)`: the base parse, then CMD and SWITCH; only the base parse can fail. */
    method EncodeMessage(data: string) returns (outcome: Outcome)
      modifies this, base
      ensures base.Encoded(data)
      ensures var f := ParseFrameInto(data, old(base.values));
        && outcome == OutcomeOf(f)
        && (f.Err? ==> Current() == old(Current()))
        && (f.Ok? ==> Current() == Decode(f.value.values, old(Current())))
    {
      outcome := base.EncodeMessage(data);
      if outcome.Fail? {
        return;
      }
      if KeyCmd in base.values {
        var c := FromString(SwitchTexts, base.values[KeyCmd]);
        command := if c.None? then Unknown else c.value;
      }
      if KeySwitch in base.values {
        switchCode := base.values[KeySwitch];
      }
    }
  }

  /** The device id of a switch message: the base id, then `-` and the SWITCH value of its frame. */
  method NewSwitchMessage(data: string) returns (m: SwitchMessage, outcome: Outcome)
    ensures fresh(m) && fresh(m.base)
    ensures var f := ParseFrame(data);
      && outcome == OutcomeOf(f)
      && (f.Ok? && KeySwitch in f.value.values ==> m.DeviceId() == m.base.DeviceId() + "-" + f.value.values[KeySwitch])
      && (f.Ok? && KeySwitch !in f.value.values ==> m.DeviceId() == m.base.DeviceId() + "-")
  {
    m := new SwitchMessage();
    outcome := m.EncodeMessage(data);
  }
}
