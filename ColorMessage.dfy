/**
 * RfLinkColorMessage: colour lights (MiLight and alike). Inbound frames carry the colour as
 * RGBW (hue byte, brightness byte) and an optional CMD; outbound commands are turned into an
 * RGBW value and a wire command. The last colour of every device is kept in a cache shared by
 * all colour messages.
 */
module ColorMessage {
  import opened Common
  import opened JavaText
  import opened Channels
  import opened RfLinkBase
  import TypeUtils
  import DataParser

  const KeyRgbw: string := "RGBW"
  const KeySwitch: string := "SWITCH"
  const KeyCmd: string := "CMD"

  /** `keys()`. */
  const Keys: seq<string> := [KeyRgbw]

  /** `COLOR_OFFSET`: the angle between openHAB's hue and the hue of the RFLink/MiLight byte. */
  const ColorOffset: int := 45

  /** An HSBType: hue in degrees, saturation and brightness in percent. */
  datatype Hsb = Hsb(hue: int, saturation: int, brightness: int)

  /** The ranges HSBType enforces. */
  predicate ValidHsb(c: Hsb)
  {
    0 <= c.hue <= 360 && 0 <= c.saturation <= 100 && 0 <= c.brightness <= 100
  }

  /** The commands the framework can hand over are valid values of their types. */
  predicate ValidCommand(t: TypeUtils.Type)
  {
    && (t.Percent? ==> 0 <= t.percent <= 100)
    && (t.Hsb? ==> ValidHsb(Hsb(t.hue, t.saturation, t.brightness)))
  }

  /** Two characters parse to at most 255, and to no less than -15 (a sign and one digit). */
  lemma TwoHexDigits(s: string)
    requires |s| == 2 && ParseInt(s, 16).Some?
    ensures -15 <= ParseInt(s, 16).value <= 255
  {
    if s[0] == '-' || s[0] == '+' {
      var d := s[1..];
      assert d == [s[1]] && d[..0] == [];
      assert DigitsValue(d, 16) == DigitValue(s[1]) <= 15;
    } else {
      assert s[..1][..0] == [] && s[..|s| - 1] == s[..1];
      assert DigitsValue(s[..1], 16) == DigitValue(s[0]);
      assert DigitsValue(s, 16) == DigitValue(s[0]) * 16 + DigitValue(s[1]);
    }
  }

  /**
   * The inbound RGBW value: the first two characters are the hue byte, the next two the
   * brightness byte, both hexadecimal. A value shorter than that is the substring's
   * IndexOutOfBounds; a brightness byte below zero (a sign) is PercentType's IllegalArgument.
   */
  function DecodeRgbw(rgbw: string): (r: Result<Hsb>)
    ensures r.Ok? ==> ValidHsb(r.value) && r.value.hue < 360 && r.value.saturation == 100
    ensures |rgbw| < 2 ==> r == Err(IndexOutOfBounds)
  {
    if |rgbw| < 2 then Err(IndexOutOfBounds)
    else match ParseInt(rgbw[..2], 16)
      case None => Err(NumberFormat)
      case Some(color) =>
        if |rgbw| < 4 then Err(IndexOutOfBounds)
        else match ParseInt(rgbw[2..4], 16)
          case None => Err(NumberFormat)
          case Some(bright) =>
            TwoHexDigits(rgbw[..2]);
            TwoHexDigits(rgbw[2..4]);
            var hue := (JavaDiv(color * 360, 255) + 360 - ColorOffset) % 360;
            var brightness := JavaDiv(bright * 100, 255);
            if brightness < 0 then Err(IllegalArgument) else Ok(Hsb(hue, 100, brightness))
  }

  /**
   * What the inbound CMD does to the colour and the on/off state: OFF switches off; ON and
   * ALLOFF switch on; ALLON switches on and drops the saturation to 0; BRIGHT and COLOR raise
   * the saturation to 100, which needs a colour (NullPointer without one); any other text does
   * nothing.
   */
  function ApplyCmd(cmd: string, color: Option<Hsb>, onOff: Option<bool>): (r: Result<(Option<Hsb>, Option<bool>)>)
    ensures r.Err? <==> (cmd == "BRIGHT" || cmd == "COLOR") && color.None?
    ensures r.Ok? ==> r.value.0.Some? == color.Some?
  {
    if cmd == "ALLON" then
      Ok((if color.Some? then Some(color.value.(saturation := 0)) else None, Some(true)))
    else if cmd == "ALLOFF" || cmd == "ON" then Ok((color, Some(true)))
    else if cmd == "OFF" then Ok((color, Some(false)))
    else if cmd == "BRIGHT" || cmd == "COLOR" then
      if color.None? then Err(NullPointer) else Ok((Some(color.value.(saturation := 100)), onOff))
    else Ok((color, onOff))
  }

  /** The CMD texts and their effect on the on/off state and the saturation. */
  lemma CmdEffects(cmd: string, c: Hsb, onOff: Option<bool>)
    ensures ApplyCmd("OFF", Some(c), onOff) == Ok((Some(c), Some(false)))
    ensures ApplyCmd("ON", Some(c), onOff) == ApplyCmd("ALLOFF", Some(c), onOff) == Ok((Some(c), Some(true)))
    ensures ApplyCmd("ALLON", Some(c), onOff) == Ok((Some(c.(saturation := 0)), Some(true)))
    ensures ApplyCmd("BRIGHT", Some(c), onOff) == ApplyCmd("COLOR", Some(c), onOff)
      == Ok((Some(c.(saturation := 100)), onOff))
    ensures cmd !in {"OFF", "ON", "ALLOFF", "ALLON", "BRIGHT", "COLOR"} ==> ApplyCmd(cmd, Some(c), onOff) == Ok((Some(c), onOff))
  {
  }

  /** The state the inbound part leaves: the colour and the on/off state. */
  datatype Inbound = Inbound(color: Option<Hsb>, onOff: Option<bool>)

  /** The colour an inbound frame sets: its RGBW when present, else the colour held before. */
  function DecodeColor(values: map<string, string>, prev: Option<Hsb>): Result<Option<Hsb>>
  {
    if KeyRgbw in values then
      var c :- DecodeRgbw(values[KeyRgbw]);
      Ok(Some(c))
    else Ok(prev)
  }

  /** The device id after the base parse: a SWITCH value is appended to it (`null-…` when unset). */
  function SwitchedId(values: map<string, string>, id: Option<string>): Option<string>
  {
    if KeySwitch in values then Some(JavaString(id) + IdDelimiter + values[KeySwitch]) else id
  }

  /** `getStates()`: no colour is a null state; off or unknown shows brightness 0; on shows the colour. */
  function States(color: Option<Hsb>, onOff: Option<bool>): (m: map<string, State>)
    ensures m.Keys == {ColorChannel}
    ensures color.None? ==> m[ColorChannel] == NullState
    ensures color.Some? && onOff != Some(true) ==>
      m[ColorChannel] == HsbState(color.value.hue, color.value.saturation, 0)
    ensures color.Some? && onOff == Some(true) ==>
      m[ColorChannel] == HsbState(color.value.hue, color.value.saturation, color.value.brightness)
  {
    if color.None? then map[ColorChannel := NullState]
    else if onOff == Some(true) then
      map[ColorChannel := HsbState(color.value.hue, color.value.saturation, color.value.brightness)]
    else map[ColorChannel := HsbState(color.value.hue, color.value.saturation, 0)]
  }

  /**
   * What the colour channel shows after an inbound CMD on a known colour: OFF shows the colour
   * at brightness 0; ON and ALLOFF show the colour itself; ALLON shows it without saturation;
   * BRIGHT and COLOR show it fully saturated, lit only when it was already on.
   */
  lemma CmdReported(c: Hsb, onOff: Option<bool>)
    ensures var r := ApplyCmd("OFF", Some(c), onOff).value;
      States(r.0, r.1)[ColorChannel] == HsbState(c.hue, c.saturation, 0)
    ensures var r := ApplyCmd("ON", Some(c), onOff).value;
      States(r.0, r.1)[ColorChannel] == HsbState(c.hue, c.saturation, c.brightness)
    ensures var r := ApplyCmd("ALLOFF", Some(c), onOff).value;
      States(r.0, r.1)[ColorChannel] == HsbState(c.hue, c.saturation, c.brightness)
    ensures var r := ApplyCmd("ALLON", Some(c), onOff).value;
      States(r.0, r.1)[ColorChannel] == HsbState(c.hue, 0, c.brightness)
    ensures var r := ApplyCmd("BRIGHT", Some(c), onOff).value;
      States(r.0, r.1)[ColorChannel] == HsbState(c.hue, 100, if onOff == Some(true) then c.brightness else 0)
    ensures ApplyCmd("COLOR", Some(c), onOff) == ApplyCmd("BRIGHT", Some(c), onOff)
  {
    CmdEffects("", c, onOff);
  }

  /**
   * The colour an outbound command leaves, from the cached one: an HSB command replaces it; a
   * percent sets the brightness (hue and saturation 0 without a cached colour); INCREASE and
   * DECREASE step the brightness by 10 within 0..100 (100 or 0 without a cached colour); other
   * commands keep the cached colour.
   */
  function CommandColor(command: TypeUtils.Type, cached: Option<Hsb>): Option<Hsb>
  {
    match command
    case Hsb(h, s, b) => Some(Hsb(h, s, b))
    case Percent(p) =>
      if cached.None? then Some(Hsb(0, 0, p)) else Some(cached.value.(brightness := p))
    case Increase =>
      if cached.None? then Some(Hsb(0, 0, 100))
      else Some(cached.value.(brightness := if cached.value.brightness + 10 < 100 then cached.value.brightness + 10 else 100))
    case Decrease =>
      if cached.None? then Some(Hsb(0, 0, 0))
      else Some(cached.value.(brightness := if cached.value.brightness - 10 > 0 then cached.value.brightness - 10 else 0))
    case _ => cached
  }

  /** Steps keep the colour valid, move the brightness by at most 10, and keep hue and saturation. */
  lemma CommandColorSteps(command: TypeUtils.Type, cached: Option<Hsb>)
    requires ValidCommand(command) && (cached.Some? ==> ValidHsb(cached.value))
    ensures var c := CommandColor(command, cached);
      && (c.Some? ==> ValidHsb(c.value))
      && (cached.Some? && (command == TypeUtils.Increase || command == TypeUtils.Decrease) ==>
            && c.value.hue == cached.value.hue && c.value.saturation == cached.value.saturation
            && -10 <= c.value.brightness - cached.value.brightness <= 10
            && (command == TypeUtils.Increase ==> c.value.brightness >= cached.value.brightness)
            && (command == TypeUtils.Decrease ==> c.value.brightness <= cached.value.brightness))
      && (command.Percent? ==> c.value.brightness == command.percent)
      && (command.Percent? && cached.Some? ==>
            c.value.hue == cached.value.hue && c.value.saturation == cached.value.saturation)
  {
  }

  /** One INCREASE step from a brightness of 90 or more reaches 100, keeping hue and saturation. */
  lemma IncreaseSaturates(c: Hsb)
    requires ValidHsb(c) && c.brightness >= 90
    ensures CommandColor(TypeUtils.Increase, Some(c)) == Some(c.(brightness := 100))
  {
  }

  /** The hue byte of the outbound RGBW value: the hue turned by the offset, scaled to 0..255. */
  function HueByte(hue: int): (b: int)
    requires 0 <= hue
    ensures 0 <= b <= 254
  {
    ((hue + ColorOffset) % 360) * 255 / 360
  }

  /** The brightness byte: the percentage scaled to 0..255. */
  function BrightnessByte(brightness: int): (b: int)
    requires 0 <= brightness <= 100
    ensures 0 <= b <= 255
  {
    brightness * 255 / 100
  }

  /** `String.format("%02X%02X", …)` of the two bytes. */
  function Rgbw(c: Hsb): (s: string)
    requires ValidHsb(c)
  {
    FormatHex(HueByte(c.hue), 2) + FormatHex(BrightnessByte(c.brightness), 2)
  }

  lemma FormatByte(n: nat)
    requires n <= 255
    ensures |FormatHex(n, 2)| == 2
    ensures ParseInt(FormatHex(n, 2), 16) == Some(n)
  {
    DataParser.DigitsLength(n, 2);
    ParseFormatHex(n, 2);
  }

  /** What the inbound decoder makes of four characters whose halves parse to two bytes. */
  lemma DecodeBytes(s: string, hb: nat, bb: nat)
    requires |s| == 4 && hb <= 255 && bb <= 255
    requires ParseInt(s[..2], 16) == Some(hb) && ParseInt(s[2..4], 16) == Some(bb)
    ensures DecodeRgbw(s) == Ok(Hsb((hb * 360 / 255 + 315) % 360, 100, bb * 100 / 255))
  {
  }

  /** Scaling a percentage to a byte and back loses at most one percent. */
  lemma BrightnessBack(b: int)
    requires 0 <= b <= 100
    ensures b - 1 <= BrightnessByte(b) * 100 / 255 <= b
  {
    var q := b * 255 / 100;
    assert q * 100 <= b * 255 < q * 100 + 100;
    var r := q * 100 / 255;
    assert r * 255 <= q * 100 < r * 255 + 255;
  }

  /** Scaling an angle to a byte and back loses at most two degrees. */
  lemma AngleBack(t: int)
    requires 0 <= t < 360
    ensures t - 2 <= (t * 255 / 360) * 360 / 255 <= t
  {
    var q := t * 255 / 360;
    assert q * 360 <= t * 255 < q * 360 + 360;
    var r := q * 360 / 255;
    assert r * 255 <= q * 360 < r * 255 + 255;
  }

  lemma HueBack(hue: int)
    requires 0 <= hue < 360
    ensures var h := (HueByte(hue) * 360 / 255 + 315) % 360;
      h == hue || h == (hue + 359) % 360 || h == (hue + 358) % 360
  {
    var t := (hue + 45) % 360;
    AngleBack(t);
    var r := HueByte(hue) * 360 / 255;
    assert t - 2 <= r <= t;
    if hue < 315 {
      assert t == hue + 45;
    } else {
      assert t == hue - 315;
    }
  }

  /** Two bytes formatted side by side: four hex digits whose halves parse back to the bytes. */
  lemma HexPair(x: nat, y: nat)
    requires x <= 255 && y <= 255
    ensures var s := FormatHex(x, 2) + FormatHex(y, 2);
      && |s| == 4 && AllDigits(s, 16)
      && ParseInt(s[..2], 16) == Some(x) && ParseInt(s[2..4], 16) == Some(y)
  {
    FormatByte(x);
    FormatByte(y);
    var s := FormatHex(x, 2) + FormatHex(y, 2);
    assert s[..2] == FormatHex(x, 2);
    assert s[2..4] == FormatHex(y, 2);
  }

  /** The inbound decoder applied to the outbound RGBW value, in terms of the two bytes. */
  lemma RgbwDecodes(c: Hsb)
    requires ValidHsb(c)
    ensures DecodeRgbw(Rgbw(c)) ==
      Ok(Hsb((HueByte(c.hue) * 360 / 255 + 315) % 360, 100, BrightnessByte(c.brightness) * 100 / 255))
  {
    var s, hb, bb := Rgbw(c), HueByte(c.hue), BrightnessByte(c.brightness);
    RgbwShape(c);
    DecodeBytes(s, hb, bb);
  }

  /** The outbound RGBW value is four hex digits whose halves parse back to the two bytes. */
  lemma RgbwShape(c: Hsb)
    requires ValidHsb(c)
    ensures |Rgbw(c)| == 4 && AllDigits(Rgbw(c), 16)
    ensures ParseInt(Rgbw(c)[..2], 16) == Some(HueByte(c.hue))
    ensures ParseInt(Rgbw(c)[2..4], 16) == Some(BrightnessByte(c.brightness))
  {
    HexPair(HueByte(c.hue), BrightnessByte(c.brightness));
  }

  /**
   * The inbound decoder reads the outbound RGBW value back: the brightness to within one
   * percent below, the hue to within two degrees below (modulo 360).
   */
  lemma RgbwRoundTrip(c: Hsb)
    requires ValidHsb(c) && c.hue < 360
    ensures DecodeRgbw(Rgbw(c)).Ok?
    ensures c.brightness - 1 <= DecodeRgbw(Rgbw(c)).value.brightness <= c.brightness
    ensures var h := DecodeRgbw(Rgbw(c)).value.hue;
      h == c.hue || h == (c.hue + 359) % 360 || h == (c.hue + 358) % 360
  {
    RgbwDecodes(c);
    BrightnessBack(c.brightness);
    HueBack(c.hue);
  }

  /**
   * The wire command of `decodeMessage`, by priority: OFF for an OFF command or brightness 0;
   * ALLON for saturation under 25; COLOR for an HSB command; BRIGHT for a percent or a step;
   * ON otherwise. The flag says a second `BRIGHT` frame follows.
   */
  function WireCommand(command: TypeUtils.Type, c: Hsb): (r: (string, bool))
  {
    if command == TypeUtils.Off then ("OFF", false)
    else if c.brightness == 0 then ("OFF", false)
    else if c.saturation < 25 then ("ALLON", true)
    else if command.Hsb? then ("COLOR", true)
    else if command.Percent? || command == TypeUtils.Increase || command == TypeUtils.Decrease then ("BRIGHT", false)
    else ("ON", false)
  }

  /** The priority, stated case by case; a second frame goes with ALLON and COLOR only. */
  lemma WireCommandPriority(command: TypeUtils.Type, c: Hsb)
    ensures var (cmd, bright) := WireCommand(command, c);
      && (cmd == "OFF" <==> command == TypeUtils.Off || c.brightness == 0)
      && (cmd == "ALLON" <==> command != TypeUtils.Off && c.brightness != 0 && c.saturation < 25)
      && (cmd == "COLOR" <==> command != TypeUtils.Off && c.brightness != 0 && c.saturation >= 25 && command.Hsb?)
      && (cmd == "ON" ==> !command.Percent? && !command.Hsb? && command != TypeUtils.Off)
      && (bright <==> cmd == "ALLON" || cmd == "COLOR")
  {
  }

  /** A byte string the (external) base encoder produces. */
  type Bytes = seq<bv8>

  /**
   * The bytes `decodeMessage` returns, given the base encoder `frame`: the frame of
   * `<rgbw>;<cmd>;\r`, followed for ALLON and COLOR by the frame of `<rgbw>;BRIGHT;`.
   */
  function Frames(command: TypeUtils.Type, c: Hsb, frame: string -> Bytes): Bytes
    requires ValidHsb(c)
  {
    var (cmd, bright) := WireCommand(command, c);
    var first := frame(Rgbw(c) + ";" + cmd + ";\r");
    if bright then first + frame(Rgbw(c) + ";BRIGHT;") else first
  }

  /** The first frame always comes first, and the bytes grow by the second frame exactly when one is due. */
  lemma FramesConcatenate(command: TypeUtils.Type, c: Hsb, frame: string -> Bytes)
    requires ValidHsb(c)
    ensures var (cmd, bright) := WireCommand(command, c);
      && Frames(command, c, frame)[..|frame(Rgbw(c) + ";" + cmd + ";\r")|] == frame(Rgbw(c) + ";" + cmd + ";\r")
      && |Frames(command, c, frame)| ==
           |frame(Rgbw(c) + ";" + cmd + ";\r")| + (if bright then |frame(Rgbw(c) + ";BRIGHT;")| else 0)
  {
  }

  /** `currentState`: the last colour of every device id (the id may be null, the colour too). */
  class ColorCache {
    var entries: map<Option<string>, Option<Hsb>>

    constructor ()
      ensures entries == map[]
    {
      entries := map[];
    }

    /** `currentState.get(id)`: null for an unknown id. */
    function Get(id: Option<string>): Option<Hsb>
      reads this
    {
      if id in entries then entries[id] else None
    }

    predicate Valid()
      reads this
    {
      forall id :: id in entries && entries[id].Some? ==> ValidHsb(entries[id].value)
    }
  }

  class ColorMessage {
    const base: BaseMessage
    const cache: ColorCache
    var command: Option<TypeUtils.Type>
    var stateColor: Option<Hsb>
    var stateOnOff: Option<bool>

    predicate Valid()
      reads this, cache
    {
      (stateColor.Some? ==> ValidHsb(stateColor.value)) && cache.Valid()
    }

    /** `new RfLinkColorMessage()`, sharing the cache of all colour messages. */
    constructor (cache: ColorCache)
      requires cache.Valid()
      ensures fresh(base) && this.cache == cache && Valid()
      ensures command == None && stateColor == None && stateOnOff == None
      ensures base.rawMessage == None && base.values == map[]
      ensures base.seqNbr == 0 && base.deviceName == None && base.deviceId == None
    {
      base := new BaseMessage();
      this.cache := cache;
      command := None;
      stateColor := None;
      stateOnOff := None;
    }

    /**
     * `encodeMessage(data)`: the base parse; a SWITCH value appended to the device id; the
     * colour decoded and stored in the cache under that id; then the CMD applied.
     */
    method EncodeMessage(data: string) returns (outcome: Outcome)
      requires Valid()
      modifies this, base, cache
      ensures Valid()
      ensures base.rawMessage == Some(data)
      ensures var f := ParseFrameInto(data, old(base.values));
        && (f.Err? ==>
              && outcome == Fail(f.error) && stateColor == old(stateColor) && stateOnOff == old(stateOnOff)
              && cache.entries == old(cache.entries))
        && (f.Ok? ==>
              var id0 := if f.value.header.Some? then Some(f.value.header.value.deviceId) else old(base.deviceId);
              && base.values == f.value.values
              && base.deviceId == SwitchedId(f.value.values, id0)
              && base.deviceName ==
                   (if f.value.header.Some? then Some(f.value.header.value.deviceName) else old(base.deviceName))
              && base.seqNbr == (if f.value.header.Some? then f.value.header.value.seqNbr else old(base.seqNbr))
              && Inbound(outcome, base.values, base.deviceId, old(stateColor), old(stateOnOff), old(cache.entries)))
    {
      outcome := base.EncodeMessage(data);
      if outcome.Fail? {
        return;
      }
      if KeySwitch in base.values {
        base.deviceId := Some(JavaString(base.deviceId) + IdDelimiter + base.values[KeySwitch]);
      }
      outcome := DecodeInbound(base.values, base.deviceId);
    }

    /** The state the inbound part leaves, from the field map and the device id. */
    twostate predicate Inbound(outcome: Outcome, values: map<string, string>, id: Option<string>,
                               color0: Option<Hsb>, onOff0: Option<bool>, entries0: map<Option<string>, Option<Hsb>>)
      reads this, cache
    {
      var c := DecodeColor(values, color0);
      && (c.Err? ==> outcome == Fail(c.error) && cache.entries == entries0)
      && (c.Ok? ==>
            && cache.entries == entries0[id := c.value]
            && var cmd := if KeyCmd in values then ApplyCmd(values[KeyCmd], c.value, onOff0) else Ok((c.value, onOff0));
               outcome == OutcomeOf(cmd) && (cmd.Ok? ==> stateColor == cmd.value.0 && stateOnOff == cmd.value.1))
    }

    method DecodeInbound(values: map<string, string>, id: Option<string>) returns (outcome: Outcome)
      requires Valid()
      modifies this, cache
      ensures Valid()
      ensures Inbound(outcome, values, id, old(stateColor), old(stateOnOff), old(cache.entries))
    {
      if KeyRgbw in values {
        var decoded := DecodeRgbw(values[KeyRgbw]);
        if decoded.Err? {
          return Fail(decoded.error);
        }
        stateColor := Some(decoded.value);
      }
      cache.entries := cache.entries[id := stateColor];
      if KeyCmd in values {
        var cmd := values[KeyCmd];
        if cmd == "ALLON" {
          stateOnOff := Some(true);
          if stateColor.Some? {
            stateColor := Some(stateColor.value.(saturation := 0));
          }
        } else if cmd == "ALLOFF" || cmd == "ON" {
          stateOnOff := Some(true);
        } else if cmd == "OFF" {
          stateOnOff := Some(false);
        } else if cmd == "BRIGHT" || cmd == "COLOR" {
          if stateColor.None? {
            return Fail(NullPointer);
          }
          stateColor := Some(stateColor.value.(saturation := 100));
        }
      }
      return Pass;
    }

    /**
     * `initializeFromChannel`: the command is kept, the cached colour of this device is taken
     * up, changed by the command, and written back.
     */
    method InitializeFromChannel(triggered: TypeUtils.Type)
      requires Valid() && ValidCommand(triggered)
      modifies this, cache
      ensures Valid()
      ensures command == Some(triggered)
      ensures stateColor == CommandColor(triggered, old(cache.Get(base.deviceId)))
      ensures cache.entries == old(cache.entries)[base.deviceId := stateColor]
      ensures stateOnOff == old(stateOnOff)
    {
      command := Some(triggered);
      stateColor := cache.Get(base.deviceId);
      CommandColorSteps(triggered, stateColor);
      match triggered {
        case Hsb(h, s, b) =>
          stateColor := Some(Hsb(h, s, b));
        case Percent(p) =>
          if stateColor.None? {
            stateColor := Some(Hsb(0, 0, p));
          } else {
            stateColor := Some(Hsb(stateColor.value.hue, stateColor.value.saturation, p));
          }
        case Increase =>
          if stateColor.None? {
            stateColor := Some(Hsb(0, 0, 100));
          } else {
            var newValue := stateColor.value.brightness;
            newValue := if newValue + 10 < 100 then newValue + 10 else 100;
            stateColor := Some(Hsb(stateColor.value.hue, stateColor.value.saturation, newValue));
          }
        case Decrease =>
          if stateColor.None? {
            stateColor := Some(Hsb(0, 0, 0));
          } else {
            var newValue := stateColor.value.brightness;
            newValue := if newValue - 10 > 0 then newValue - 10 else 0;
            stateColor := Some(Hsb(stateColor.value.hue, stateColor.value.saturation, newValue));
          }
        case _ =>
      }
      cache.entries := cache.entries[base.deviceId := stateColor];
    }

    /**
     * `decodeMessage(suffix)`: null without a command; otherwise the colour (H0 S0 B100 when
     * there is none, and kept so) is sent as the frames of its wire command.
     */
    method DecodeMessage(frame: string -> Bytes) returns (bytes: Option<Bytes>)
      requires Valid()
      modifies this
      ensures Valid() && command == old(command) && stateOnOff == old(stateOnOff)
      ensures old(command).None? ==> bytes.None? && stateColor == old(stateColor)
      ensures old(command).Some? ==>
        && stateColor == Some(if old(stateColor).None? then Hsb(0, 0, 100) else old(stateColor).value)
        && bytes == Some(Frames(command.value, stateColor.value, frame))
    {
      if command.None? {
        return None;
      }
      if stateColor.None? {
        stateColor := Some(Hsb(0, 0, 100));
      }
      var c := stateColor.value;
      var rgbw := FormatHex(HueByte(c.hue), 2) + FormatHex(BrightnessByte(c.brightness), 2);
      var cmdString, sendBright := WireCommand(command.value, c).0, WireCommand(command.value, c).1;
      var res := frame(rgbw + ";" + cmdString + ";\r");
      if sendBright {
        var res2 := frame(rgbw + ";BRIGHT;");
        res := res + res2;
      }
      return Some(res);
    }
  }
}
