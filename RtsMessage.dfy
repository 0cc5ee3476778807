/** RfLinkRtsMessage: Somfy RTS frames; only the base parse runs and no state is reported. */
module RtsMessage {
  import opened Common
  import opened Channels
  import opened RfLinkBase

  const KeyRts: string := "RTS"

  /** `keys()`. */
  const Keys: seq<string> := [KeyRts]

  /** `getThingType()`. */
  const ThingType: string := "rts"

  /** `getStates()`: always empty. */
  function States(): (m: map<string, State>)
    ensures |m| == 0
  {
    map[]
  }

  class RtsMessage {
    const base: BaseMessage
    /** `switchCode`: declared `""` and never assigned by the family. */
    var switchCode: string

    /** `new RfLinkRtsMessage()`. */
    constructor ()
      ensures fresh(base) && switchCode == ""
      ensures base.rawMessage == None && base.values == map[]
      ensures base.seqNbr == 0 && base.deviceName == None && base.deviceId == None
    {
      base := new BaseMessage();
      switchCode := "";
    }

    /** `getDeviceId()`: the base id, `-`, the switch code. */
    function DeviceId(): string
      reads this, base
    {
      base.DeviceId() + IdDelimiter + switchCode
    }

    /** `encodeMessage(data)`: the base parse and nothing else; the switch code stays as it was. */
    method EncodeMessage(data: string) returns (outcome: Outcome)
      modifies base
      ensures base.Encoded(data)
      ensures outcome == OutcomeOf(ParseFrameInto(data, old(base.values)))
      ensures switchCode == old(switchCode)
    {
      outcome := base.EncodeMessage(data);
    }
  }

  /** A message built from any line has the base id followed by a trailing `-`. */
  method NewRtsMessage(data: string) returns (m: RtsMessage, outcome: Outcome)
    ensures fresh(m) && fresh(m.base)
    ensures m.DeviceId() == m.base.DeviceId() + "-"
    ensures outcome == OutcomeOf(ParseFrame(data))
    ensures States() == map[]
  {
    m := new RtsMessage();
    outcome := m.EncodeMessage(data);
  }
}
