/** RfLinkRawMessage: an outbound line kept verbatim, such as the keep-alive PING. */
module RawMessage {
  import opened Common
  import opened RfLinkBase

  /** The line of the static `PING` message. */
  const PingLine: string := "10;PING;"

  class RawMessage {
    const base: BaseMessage

    /** `new RfLinkRawMessage(data)`: the line is stored and nothing is parsed. */
    constructor (data: string)
      ensures fresh(base)
      ensures base.rawMessage == Some(data) && base.values == map[]
      ensures base.seqNbr == 0 && base.deviceName == None && base.deviceId == None
      ensures forall suffix :: BuildMessage(suffix) == Some(data)
    {
      base := new BaseMessage();
      new;
      EncodeMessage(data);
    }

    /** `encodeMessage(data)`: replaces the stored line; the field map and header are not touched. */
    method EncodeMessage(data: string)
      modifies base
      ensures base.rawMessage == Some(data)
      ensures base.values == old(base.values) && base.seqNbr == old(base.seqNbr)
      ensures base.deviceName == old(base.deviceName) && base.deviceId == old(base.deviceId)
    {
      base.rawMessage := Some(data);
    }

    /** `buildMessage(suffix)`: the stored line; the suffix is ignored. */
    function BuildMessage(suffix: string): Option<string>
      reads this, base
    {
      base.rawMessage
    }
  }

  /** The keep-alive message: it builds exactly `10;PING;`. */
  method Ping() returns (m: RawMessage)
    ensures fresh(m)
    ensures m.BuildMessage("") == Some("10;PING;")
  {
    m := new RawMessage(PingLine);
  }
}
