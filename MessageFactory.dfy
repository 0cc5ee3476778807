/**
 * RfLinkMessageFactory: the registry of message families. Registration maps every key of a
 * family and its thing type to the family; an inbound line is classified by the first of its
 * field keys (in the field map's own iteration order) that the key table knows.
 */
module MessageFactory {
  import opened Common
  import opened JavaText
  import opened RfLinkBase
  import EnergyMessage
  import WindMessage
  import RainMessage
  import SwitchMessage
  import TemperatureMessage
  import RtsMessage

  /** The families the factory registers. */
  datatype Family = Energy | Wind | Rain | Switch | Temperature | Rts

  /** The registration order of the static initialiser. */
  const Registered: seq<Family> := [Energy, Wind, Rain, Switch, Temperature, Rts]

  /** `keys()` of each family. */
  function KeysOf(f: Family): seq<string>
  {
    match f
    case Energy => EnergyMessage.Keys
    case Wind => WindMessage.Keys
    case Rain => RainMessage.Keys
    case Switch => SwitchMessage.Keys
    case Temperature => TemperatureMessage.Keys
    case Rts => RtsMessage.Keys
  }

  /** `getThingType()` of each family; Wind and Rain inherit the base's null. */
  function ThingTypeOf(f: Family): Option<string>
  {
    match f
    case Energy => Some(EnergyMessage.ThingType)
    case Wind => None
    case Rain => None
    case Switch => Some(SwitchMessage.ThingType)
    case Temperature => Some(TemperatureMessage.ThingType)
    case Rts => Some(RtsMessage.ThingType)
  }

  /** `mapping.put(key, f)` for each key in turn. */
  function PutKeys(m: map<string, Family>, keys: seq<string>, f: Family): map<string, Family>
    decreases |keys|
  {
    if keys == [] then m else PutKeys(m[keys[0] := f], keys[1..], f)
  }

  /** Putting keys adds exactly those keys, each mapped to the family; the other entries stay. */
  lemma {:induction false} PutKeysContents(m: map<string, Family>, keys: seq<string>, f: Family)
    ensures var r := PutKeys(m, keys, f);
      && (forall k :: k in r <==> k in m || k in keys)
      && (forall k :: k in keys ==> k in r && r[k] == f)
      && (forall k :: k in m && k !in keys ==> k in r && r[k] == m[k])
    decreases |keys|
  {
    if keys != [] {
      var m' := m[keys[0] := f];
      PutKeysContents(m', keys[1..], f);
      assert forall k :: k in keys <==> k == keys[0] || k in keys[1..];
    }
  }

  /** The two tables after registering `fs` in order. */
  datatype Tables = Tables(mapping: map<string, Family>, thingTypeMapping: map<Option<string>, Family>)

  function Registration(fs: seq<Family>): Tables
  {
    if fs == [] then Tables(map[], map[])
    else
      var t := Registration(fs[..|fs| - 1]);
      var f := fs[|fs| - 1];
      Tables(PutKeys(t.mapping, KeysOf(f), f), t.thingTypeMapping[ThingTypeOf(f) := f])
  }

  /** The last family of `fs` that declares key `k`. */
  function LastDeclaring(fs: seq<Family>, k: string): (r: Option<Family>)
    ensures r.Some? ==> k in KeysOf(r.value)
  {
    if fs == [] then None
    else if k in KeysOf(fs[|fs| - 1]) then Some(fs[|fs| - 1])
    else LastDeclaring(fs[..|fs| - 1], k)
  }

  /**
   * Registration maps every key of every registered family, and nothing else; when two
   * families declare the same key, the later registration wins.
   */
  lemma {:induction false} RegistrationLaterWins(fs: seq<Family>, k: string)
    ensures k in Registration(fs).mapping <==> LastDeclaring(fs, k).Some?
    ensures k in Registration(fs).mapping ==> Registration(fs).mapping[k] == LastDeclaring(fs, k).value
  {
    if fs != [] {
      var f := fs[|fs| - 1];
      RegistrationLaterWins(fs[..|fs| - 1], k);
      PutKeysContents(Registration(fs[..|fs| - 1]).mapping, KeysOf(f), f);
    }
  }

  /** The same for thing types: the last family with a given thing type owns it. */
  lemma {:induction false} ThingTypeLaterWins(fs: seq<Family>, f: Family, i: nat)
    requires i < |fs| && fs[i] == f
    requires forall j :: i < j < |fs| ==> ThingTypeOf(fs[j]) != ThingTypeOf(f)
    ensures ThingTypeOf(f) in Registration(fs).thingTypeMapping
    ensures Registration(fs).thingTypeMapping[ThingTypeOf(f)] == f
  {
    if i < |fs| - 1 {
      ThingTypeLaterWins(fs[..|fs| - 1], f, i);
    }
  }

  /** The key table of the registered families: exactly these fourteen keys. */
  const KeyTable: set<string> :=
    {"WATT", "KWATT", "WINSP", "AWINSP", "WINDIR", "WDIR", "WINGS", "WINCHL",
     "RAIN", "RAINRATE", "SWITCH", "CMD", "TEMP", "RTS"}

  /** The registration order, prefix by prefix. */
  lemma RegisteredPrefixes()
    ensures Registered[..5] == [Energy, Wind, Rain, Switch, Temperature]
    ensures Registered[..5][..4] == [Energy, Wind, Rain, Switch]
    ensures Registered[..5][..4][..3] == [Energy, Wind, Rain]
    ensures Registered[..5][..4][..3][..2] == [Energy, Wind]
    ensures Registered[..5][..4][..3][..2][..1] == [Energy]
    ensures Registered[..5][..4][..3][..2][..1][..0] == []
  {
  }

  /** Every key the families of `fs` declare, in registration order. */
  function AllKeys(fs: seq<Family>): seq<string>
  {
    if fs == [] then [] else AllKeys(fs[..|fs| - 1]) + KeysOf(fs[|fs| - 1])
  }

  lemma {:induction false} LastDeclaringSome(fs: seq<Family>, k: string)
    ensures LastDeclaring(fs, k).Some? <==> k in AllKeys(fs)
  {
    if fs != [] {
      LastDeclaringSome(fs[..|fs| - 1], k);
    }
  }

  lemma RegisteredKeys(k: string)
    ensures k in Registration(Registered).mapping <==> k in KeyTable
    ensures k in Registration(Registered).mapping ==> k in KeysOf(Registration(Registered).mapping[k])
  {
    RegistrationLaterWins(Registered, k);
    RegisteredPrefixes();
    LastDeclaringSome(Registered, k);
    assert AllKeys([Energy]) == ["WATT", "KWATT"];
    assert AllKeys([Energy, Wind]) == ["WATT", "KWATT", "WINSP", "AWINSP", "WINDIR", "WDIR", "WINGS", "WINCHL"];
    assert AllKeys([Energy, Wind, Rain]) ==
      ["WATT", "KWATT", "WINSP", "AWINSP", "WINDIR", "WDIR", "WINGS", "WINCHL", "RAIN", "RAINRATE"];
    assert AllKeys([Energy, Wind, Rain, Switch]) ==
      ["WATT", "KWATT", "WINSP", "AWINSP", "WINDIR", "WDIR", "WINGS", "WINCHL", "RAIN", "RAINRATE", "SWITCH", "CMD"];
    assert AllKeys([Energy, Wind, Rain, Switch, Temperature]) ==
      ["WATT", "KWATT", "WINSP", "AWINSP", "WINDIR", "WDIR", "WINGS", "WINCHL",
       "RAIN", "RAINRATE", "SWITCH", "CMD", "TEMP"];
    assert AllKeys(Registered) ==
      ["WATT", "KWATT", "WINSP", "AWINSP", "WINDIR", "WDIR", "WINGS", "WINCHL",
       "RAIN", "RAINRATE", "SWITCH", "CMD", "TEMP", "RTS"];
  }

  /**
   * The thing-type table: energy, switch, temperature and rts map to their families, and the
   * null thing type belongs to Rain, registered after Wind; Wind owns no entry.
   */
  lemma RegisteredThingTypes()
    ensures Registration(Registered).thingTypeMapping ==
      map[Some("energy") := Energy, None := Rain, Some("switch") := Switch,
          Some("temperature") := Temperature, Some("rts") := Rts]
    ensures forall t :: t in Registration(Registered).thingTypeMapping ==> Registration(Registered).thingTypeMapping[t] != Wind
  {
    RegisteredPrefixes();
    var p := Registered[..5][..4][..3][..2][..1];
    assert Registration(p).thingTypeMapping == map[Some("energy") := Energy];
    assert Registration(Registered[..5][..4][..3][..2]).thingTypeMapping == map[Some("energy") := Energy, None := Wind];
    assert Registration(Registered[..5][..4][..3]).thingTypeMapping == map[Some("energy") := Energy, None := Rain];
    assert Registration(Registered[..5][..4]).thingTypeMapping ==
      map[Some("energy") := Energy, None := Rain, Some("switch") := Switch];
    assert Registration(Registered[..5]).thingTypeMapping ==
      map[Some("energy") := Energy, None := Rain, Some("switch") := Switch, Some("temperature") := Temperature];
  }

  /** A family object, as `createMessage` hands it out. */
  datatype Message =
    | EnergyMsg(energy: EnergyMessage.EnergyMessage)
    | WindMsg(wind: WindMessage.WindMessage)
    | RainMsg(rain: RainMessage.RainMessage)
    | SwitchMsg(switch: SwitchMessage.SwitchMessage)
    | TemperatureMsg(temperature: TemperatureMessage.TemperatureMessage)
    | RtsMsg(rts: RtsMessage.RtsMessage)

  function FamilyOf(m: Message): Family
  {
    match m
    case EnergyMsg(_) => Energy
    case WindMsg(_) => Wind
    case RainMsg(_) => Rain
    case SwitchMsg(_) => Switch
    case TemperatureMsg(_) => Temperature
    case RtsMsg(_) => Rts
  }

  /** The base part of a family object. */
  function BaseOf(m: Message): BaseMessage
  {
    match m
    case EnergyMsg(x) => x.base
    case WindMsg(x) => x.base
    case RainMsg(x) => x.base
    case SwitchMsg(x) => x.base
    case TemperatureMsg(x) => x.base
    case RtsMsg(x) => x.base
  }

  /** A family's `new X(packet)` runs to the end: the frame parses and the family decodes its fields. */
  predicate Accepts(f: Family, packet: string, parsers: WindMessage.Parsers)
  {
    var fr := ParseFrame(packet);
    && fr.Ok?
    && match f
       case Energy => EnergyMessage.Decode(fr.value.values, EnergyMessage.Default).Ok?
       case Wind => WindMessage.Decode(fr.value.values, WindMessage.Default, parsers).Ok?
       case Rain => RainMessage.Decode(fr.value.values, RainMessage.Default).Ok?
       case Switch => true
       case Temperature => TemperatureMessage.Decode(fr.value.values, TemperatureMessage.Default).Ok?
       case Rts => true
  }

  /** The objects a family object is made of: itself and its base part. */
  function ObjectsOf(m: Message): set<object>
  {
    match m
    case EnergyMsg(x) => {x, x.base}
    case WindMsg(x) => {x, x.base}
    case RainMsg(x) => {x, x.base}
    case SwitchMsg(x) => {x, x.base}
    case TemperatureMsg(x) => {x, x.base}
    case RtsMsg(x) => {x, x.base}
  }

  /**
   * A family object built from `packet` holds what the line carries: the frame's fields and
   * header (sequence number, device name and id) in its base part, and its family's decode of
   * those fields, started from the family's defaults, in its readings.
   */
  predicate Decoded(m: Message, packet: string, parsers: WindMessage.Parsers)
    reads ObjectsOf(m)
  {
    var fr := ParseFrame(packet);
    && fr.Ok?
    && BaseOf(m).values == fr.value.values
    && BaseOf(m).deviceId == (if fr.value.header.Some? then Some(fr.value.header.value.deviceId) else None)
    && BaseOf(m).deviceName == (if fr.value.header.Some? then Some(fr.value.header.value.deviceName) else None)
    && BaseOf(m).seqNbr == (if fr.value.header.Some? then fr.value.header.value.seqNbr else 0)
    && match m
       case EnergyMsg(x) => EnergyMessage.Decode(fr.value.values, EnergyMessage.Default) == Ok(x.Current())
       case WindMsg(x) => WindMessage.Decode(fr.value.values, WindMessage.Default, parsers) == Ok(x.Current())
       case RainMsg(x) => RainMessage.Decode(fr.value.values, RainMessage.Default) == Ok(x.Current())
       case SwitchMsg(x) => x.Current() == SwitchMessage.Decode(fr.value.values, SwitchMessage.Default)
       case TemperatureMsg(x) =>
         TemperatureMessage.Decode(fr.value.values, TemperatureMessage.Default) == Ok(x.Current())
       case RtsMsg(x) => x.switchCode == ""
  }

  /**
   * The answer of `createMessage(String)` to a line, given the key table: the base parse's
   * error; NotImp exactly when no field key is known; a link error only when some known key
   * names a family that cannot be built from the line; otherwise an object of a family named
   * by a known key that holds the line and its family's decode of it.
   */
  predicate Classified(mapping: map<string, Family>, packet: string, parsers: WindMessage.Parsers, r: Result<Message>)
    reads if r.Ok? then ObjectsOf(r.value) else {}
  {
    var f := ParseFrame(packet);
    && (f.Err? ==> r == Err(f.error))
    && (f.Ok? ==>
          var cands := Candidates(f.value.values, mapping);
          && (r == Err(NotImp) <==> cands == {})
          && (r.Err? ==> r.error == NotImp || r.error == LinkError)
          && (r.Ok? ==>
                && BaseOf(r.value).rawMessage == Some(packet)
                && Accepts(FamilyOf(r.value), packet, parsers)
                && Decoded(r.value, packet, parsers)
                && exists k :: k in cands && FamilyOf(r.value) == mapping[k])
          && (r == Err(LinkError) ==> exists k :: k in cands && !Accepts(mapping[k], packet, parsers)))
  }

  /** `cl.getConstructor(String.class).newInstance(packet)`: a fresh family object encoding the packet. */
  method Instantiate(f: Family, packet: string, parsers: WindMessage.Parsers) returns (m: Message, outcome: Outcome)
    ensures FamilyOf(m) == f && fresh(BaseOf(m)) && fresh(ObjectsOf(m))
    ensures BaseOf(m).rawMessage == Some(packet)
    ensures outcome.Pass? <==> Accepts(f, packet, parsers)
    ensures outcome.Pass? ==> Decoded(m, packet, parsers)
  {
    match f {
      case Energy =>
        var x := new EnergyMessage.EnergyMessage();
        outcome := x.EncodeMessage(packet);
        m := EnergyMsg(x);
      case Wind =>
        var x := new WindMessage.WindMessage(parsers);
        outcome := x.EncodeMessage(packet);
        m := WindMsg(x);
      case Rain =>
        var x := new RainMessage.RainMessage();
        outcome := x.EncodeMessage(packet);
        m := RainMsg(x);
      case Switch =>
        var x := new SwitchMessage.SwitchMessage();
        outcome := x.EncodeMessage(packet);
        m := SwitchMsg(x);
      case Temperature =>
        var x := new TemperatureMessage.TemperatureMessage();
        outcome := x.EncodeMessage(packet);
        m := TemperatureMsg(x);
      case Rts =>
        var x := new RtsMessage.RtsMessage();
        outcome := x.EncodeMessage(packet);
        m := RtsMsg(x);
    }
  }

  /** The field keys of a frame that the key table knows. */
  function Candidates(values: map<string, string>, mapping: map<string, Family>): (c: set<string>)
    ensures forall k :: k in c <==> k in values && k in mapping
  {
    set k | k in values && k in mapping
  }

  /** The two static tables and the operations over them. */
  class MessageFactory {
    var mapping: map<string, Family>
    var thingTypeMapping: map<Option<string>, Family>

    /** The tables hold what the static initialiser registered. */
    predicate Valid()
      reads this
    {
      Tables(mapping, thingTypeMapping) == Registration(Registered)
    }

    /** The static initialiser: the six families registered in order. */
    constructor ()
      ensures Valid()
    {
      mapping := map[];
      thingTypeMapping := map[];
      new;
      RegisteredPrefixes();
      AddMappingOfClass(Energy);
      assert Tables(mapping, thingTypeMapping) == Registration([Energy]);
      AddMappingOfClass(Wind);
      assert Tables(mapping, thingTypeMapping) == Registration([Energy, Wind]);
      AddMappingOfClass(Rain);
      assert Tables(mapping, thingTypeMapping) == Registration([Energy, Wind, Rain]);
      AddMappingOfClass(Switch);
      assert Tables(mapping, thingTypeMapping) == Registration([Energy, Wind, Rain, Switch]);
      AddMappingOfClass(Temperature);
      assert Tables(mapping, thingTypeMapping) == Registration([Energy, Wind, Rain, Switch, Temperature]);
      AddMappingOfClass(Rts);
    }

    /** `addMappingOfClass`: every key of the family, then its thing type, mapped to it. */
    method AddMappingOfClass(f: Family)
      modifies this
      ensures mapping == PutKeys(old(mapping), KeysOf(f), f)
      ensures thingTypeMapping == old(thingTypeMapping)[ThingTypeOf(f) := f]
    {
      var keys := KeysOf(f);
      var i := 0;
      while i < |keys|
        invariant 0 <= i <= |keys|
        invariant PutKeys(mapping, keys[i..], f) == PutKeys(old(mapping), keys, f)
        invariant thingTypeMapping == old(thingTypeMapping)
      {
        assert keys[i..] == [keys[i]] + keys[i + 1..];
        mapping := mapping[keys[i] := f];
        i := i + 1;
      }
      thingTypeMapping := thingTypeMapping[ThingTypeOf(f) := f];
    }

    /**
     * `createMessage(RfLinkBaseMessage)`: some field key of the frame that the key table knows
     * picks the family (which one, when several match, is the field map's iteration order);
     * the family object is rebuilt from the same raw line. No known key is NotImp, or a
     * NullPointerException when there is no raw line to name in the message; a family object
     * that cannot be built is LinkError.
     */
    method CreateMessageFrom(message: BaseMessage, parsers: WindMessage.Parsers) returns (r: Result<Message>)
      ensures var cands := Candidates(message.values, mapping);
        && (r == Err(NotImp) <==> cands == {} && message.rawMessage.Some?)
        && (r == Err(NullPointer) <==> cands == {} && message.rawMessage.None?)
        && (r.Err? ==> r.error == NotImp || r.error == LinkError || r.error == NullPointer)
        && (r.Ok? ==>
              && fresh(BaseOf(r.value)) && fresh(ObjectsOf(r.value))
              && message.rawMessage.Some?
              && BaseOf(r.value).rawMessage == message.rawMessage
              && Accepts(FamilyOf(r.value), message.rawMessage.value, parsers)
              && Decoded(r.value, message.rawMessage.value, parsers)
              && exists k :: k in cands && FamilyOf(r.value) == mapping[k])
        && (r == Err(LinkError) ==>
              exists k :: k in cands &&
                (message.rawMessage.None? || !Accepts(mapping[k], message.rawMessage.value, parsers)))
    {
      var cands := Candidates(message.values, mapping);
      if cands == {} {
        if message.rawMessage.None? {
          return Err(NullPointer);
        }
        return Err(NotImp);
      }
      var key :| key in cands;
      if message.rawMessage.None? {
        return Err(LinkError);
      }
      var m, outcome := Instantiate(mapping[key], message.rawMessage.value, parsers);
      if outcome.Fail? {
        return Err(LinkError);
      }
      return Ok(m);
    }

    /**
     * `createMessage(String)`: the line is first parsed by a base message (whose errors reach the
     * caller), then classified. A line that is short or not from the gateway has no fields and
     * is NotImp.
     */
    method CreateMessage(packet: string, parsers: WindMessage.Parsers) returns (r: Result<Message>)
      ensures Classified(mapping, packet, parsers, r)
      ensures r.Ok? ==> fresh(BaseOf(r.value)) && fresh(ObjectsOf(r.value))
      ensures !IsGatewayFrame(Split(packet, FieldsDelimiter)) ==> r == Err(NotImp)
    {
      var base := new BaseMessage();
      var outcome := base.EncodeMessage(packet);
      if outcome.Fail? {
        return Err(outcome.error);
      }
      r := CreateMessageFrom(base, parsers);
      IgnoredLines(packet);
    }

    /**
     * `createMessageForSendingToThing`: a fresh, empty object of the family registered for the
     * thing type, or null for a thing type nobody registered.
     */
    method CreateMessageForSendingToThing(thingType: string, parsers: WindMessage.Parsers) returns (r: Option<Message>)
      ensures r.Some? <==> Some(thingType) in thingTypeMapping
      ensures r.Some? ==>
        && FamilyOf(r.value) == thingTypeMapping[Some(thingType)]
        && fresh(BaseOf(r.value)) && BaseOf(r.value).rawMessage == None
    {
      if Some(thingType) !in thingTypeMapping {
        return None;
      }
      match thingTypeMapping[Some(thingType)] {
        case Energy =>
          var x := new EnergyMessage.EnergyMessage();
          r := Some(EnergyMsg(x));
        case Wind =>
          var x := new WindMessage.WindMessage(parsers);
          r := Some(WindMsg(x));
        case Rain =>
          var x := new RainMessage.RainMessage();
          r := Some(RainMsg(x));
        case Switch =>
          var x := new SwitchMessage.SwitchMessage();
          r := Some(SwitchMsg(x));
        case Temperature =>
          var x := new TemperatureMessage.TemperatureMessage();
          r := Some(TemperatureMsg(x));
        case Rts =>
          var x := new RtsMessage.RtsMessage();
          r := Some(RtsMsg(x));
      }
    }
  }

  /** A frame carrying a key of exactly one family is always classified as that family. */
  lemma UniqueClassification(values: map<string, string>, f: Family)
    requires f in Registered
    requires forall k :: k in values && k in KeyTable ==> k in KeysOf(f)
    requires exists k :: k in values && k in KeysOf(f)
    ensures var mapping := Registration(Registered).mapping;
      && Candidates(values, mapping) != {}
      && forall k :: k in Candidates(values, mapping) ==> mapping[k] == f
  {
    var mapping := Registration(Registered).mapping;
    var k0 :| k0 in values && k0 in KeysOf(f);
    RegisteredKeys(k0);
    KeysOfRegistered(f, k0);
    assert k0 in Candidates(values, mapping);
    forall k | k in Candidates(values, mapping) ensures mapping[k] == f {
      RegisteredKeys(k);
      KeysDisjoint(mapping[k], f, k);
    }
  }

  /** Every key a registered family declares is in the key table. */
  lemma KeysOfRegistered(f: Family, k: string)
    requires k in KeysOf(f)
    ensures k in KeyTable
  {
  }

  /** No key is declared by two families: the registration order never matters for keys. */
  lemma KeysDisjoint(f: Family, g: Family, k: string)
    requires k in KeysOf(f) && k in KeysOf(g)
    ensures f == g
  {
  }
}
