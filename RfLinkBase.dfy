/**
 * RfLinkBaseMessage: the inbound frame parser shared by every message family.
 * A gateway line looks like `20;31;Mebus;ID=c201;TEMP=00cf;`: the node marker, a hex
 * sequence number, the device name, `ID=<device id>` and then keyed fields.
 */
module RfLinkBase {
  import opened Common
  import opened JavaText
  import DataParser

  const FieldsDelimiter: char := ';'
  const ValueDelimiter: char := '='
  const IdDelimiter: string := "-"
  const NodeNumberFromGateway: string := "20"
  const MinimalSizeMessage: nat := 5

  /** The characters a device name may keep: `[A-Za-z0-9_-]`. */
  predicate IsNameChar(c: char)
  {
    ('A' <= c <= 'Z') || ('a' <= c <= 'z') || ('0' <= c <= '9') || c == '_' || c == '-'
  }

  predicate IsName(s: string)
  {
    forall i :: 0 <= i < |s| ==> IsNameChar(s[i])
  }

  /** `replaceAll("[^A-Za-z0-9_-]", "")`: every other character removed, the rest kept in order. */
  function SanitizeName(s: string): (r: string)
    ensures IsName(r)
    ensures |r| <= |s|
  {
    if s == [] then []
    else SanitizeName(s[..|s| - 1]) + (if IsNameChar(s[|s| - 1]) then [s[|s| - 1]] else [])
  }

  /** Sanitising distributes over concatenation: each character is kept or dropped on its own. */
  lemma {:induction false} SanitizeAppend(a: string, b: string)
    ensures SanitizeName(a + b) == SanitizeName(a) + SanitizeName(b)
    decreases |b|
  {
    if b != [] {
      var last := b[|b| - 1];
      assert (a + b)[..|a + b| - 1] == a + b[..|b| - 1];
      SanitizeAppend(a, b[..|b| - 1]);
    } else {
      assert a + b == a;
    }
  }

  /** A name that is already valid is left untouched; so sanitising twice changes nothing. */
  lemma {:induction false} SanitizeValid(s: string)
    requires IsName(s)
    ensures SanitizeName(s) == s
  {
    if s != [] {
      SanitizeValid(s[..|s| - 1]);
    }
  }

  lemma SanitizeIdempotent(s: string)
    ensures SanitizeName(SanitizeName(s)) == SanitizeName(s)
  {
    SanitizeValid(SanitizeName(s));
  }

  /** `field.split("=")[1]`: the text between the first and second `=`; a missing piece throws. */
  function DeviceIdOf(field: string): Result<string>
  {
    var parts := Split(field, ValueDelimiter);
    if |parts| < 2 then Err(IndexOutOfBounds) else Ok(parts[1])
  }

  /**
   * `ID=<id>` followed by nothing or by a further `=`: the id is the text between the first two `=`.
   */
  lemma DeviceIdBetweenDelimiters(key: string, id: string, tail: string)
    requires ValueDelimiter !in key && ValueDelimiter !in id && id != ""
    requires tail == [] || tail[0] == ValueDelimiter
    ensures DeviceIdOf(key + "=" + id + tail) == Ok(id)
  {
    var field := key + "=" + id + tail;
    var ps := Pieces(field, '=');
    assert |ps| >= 2 && ps[0] == key && ps[1] == id by {
      assert field == key + ['='] + (id + tail);
      PiecesCons(key, '=', id + tail);
      PiecesHead(id, tail);
    }
    assert '=' in field by { assert field[|key|] == '='; }
    assert Split(field, '=') == StripTrailingEmpty(ps);
    StripKeepsNonEmpty(ps, 1);
  }

  lemma PiecesHead(id: string, tail: string)
    requires ValueDelimiter !in id
    requires tail == [] || tail[0] == ValueDelimiter
    ensures Pieces(id + tail, '=')[0] == id
  {
    if tail == [] {
      assert id + tail == id;
    } else {
      assert id + tail == id + ['='] + tail[1..];
      PiecesCons(id, '=', tail[1..]);
    }
  }

  /** Dropping trailing empty pieces keeps every piece up to a non-empty one. */
  lemma StripKeepsNonEmpty(ps: seq<string>, i: nat)
    requires i < |ps| && ps[i] != ""
    ensures |StripTrailingEmpty(ps)| > i && StripTrailingEmpty(ps)[i] == ps[i]
  {
  }

  /** A fourth field with no `=` has no second piece: the parse fails. */
  lemma DeviceIdNeedsDelimiter(field: string)
    requires ValueDelimiter !in field
    ensures DeviceIdOf(field) == Err(IndexOutOfBounds)
  {
  }

  /** The name of a `name=value` field: the text before its first `=`. */
  function KeyOf(element: string): string
    requires ValueDelimiter in element
  {
    element[..IndexOf(element, ValueDelimiter)]
  }

  /** The value of a `name=value` field: everything after its first `=`, further `=` included. */
  function ValueOf(element: string): string
    requires ValueDelimiter in element
  {
    element[IndexOf(element, ValueDelimiter) + 1..]
  }

  predicate AllFields(elements: seq<string>)
  {
    forall i :: 0 <= i < |elements| ==> ValueDelimiter in elements[i]
  }

  /** No later field repeats the name of field `i`. */
  predicate LastOfKey(elements: seq<string>, i: int)
    requires AllFields(elements) && 0 <= i < |elements|
  {
    forall j :: i < j < |elements| ==> KeyOf(elements[j]) != KeyOf(elements[i])
  }

  function KeySet(elements: seq<string>): set<string>
    requires AllFields(elements)
  {
    set i | 0 <= i < |elements| :: KeyOf(elements[i])
  }

  /**
   * The `for` loop over the keyed fields: each element put into the map in order; an element
   * without `=` throws (`substring(0, -1)`).
   */
  function PutFields(m: map<string, string>, elements: seq<string>): (r: Result<map<string, string>>)
    ensures r.Err? ==> r.error == IndexOutOfBounds
  {
    if elements == [] then Ok(m)
    else
      match PutFields(m, elements[..|elements| - 1])
      case Err(e) => Err(e)
      case Ok(m') =>
        var last := elements[|elements| - 1];
        if ValueDelimiter !in last then Err(IndexOutOfBounds)
        else Ok(m'[KeyOf(last) := ValueOf(last)])
  }

  /** The loop succeeds exactly when every field has a `=`. */
  lemma {:induction false} PutFieldsOkIff(m: map<string, string>, elements: seq<string>)
    ensures PutFields(m, elements).Ok? <==> AllFields(elements)
  {
    if elements != [] {
      var front := elements[..|elements| - 1];
      PutFieldsOkIff(m, front);
      assert forall i :: 0 <= i < |front| ==> front[i] == elements[i];
    }
  }

  /** The names in the map after the loop: those before it and those of every field. */
  lemma {:induction false} PutFieldsKeys(m: map<string, string>, elements: seq<string>)
    requires AllFields(elements)
    ensures PutFields(m, elements).Ok? && PutFields(m, elements).value.Keys == m.Keys + KeySet(elements)
  {
    PutFieldsOkIff(m, elements);
    if elements != [] {
      var front := elements[..|elements| - 1];
      assert AllFields(front) by {
        assert forall i :: 0 <= i < |front| ==> front[i] == elements[i];
      }
      PutFieldsKeys(m, front);
      assert KeySet(elements) == KeySet(front) + {KeyOf(elements[|elements| - 1])} by {
        forall k | k in KeySet(elements) ensures k in KeySet(front) + {KeyOf(elements[|elements| - 1])} {
          var i :| 0 <= i < |elements| && KeyOf(elements[i]) == k;
          if i < |front| { assert front[i] == elements[i]; }
        }
        forall k | k in KeySet(front) ensures k in KeySet(elements) {
          var i :| 0 <= i < |front| && KeyOf(front[i]) == k;
          assert front[i] == elements[i];
        }
      }
    }
  }

  /** A name repeated among the fields keeps the value of its last occurrence. */
  lemma {:induction false} PutFieldsLastWins(m: map<string, string>, elements: seq<string>, i: int)
    requires AllFields(elements) && 0 <= i < |elements| && LastOfKey(elements, i)
    ensures PutFields(m, elements).Ok? && KeyOf(elements[i]) in PutFields(m, elements).value
    ensures PutFields(m, elements).value[KeyOf(elements[i])] == ValueOf(elements[i])
  {
    PutFieldsOkIff(m, elements);
    var front := elements[..|elements| - 1];
    assert AllFields(front) by {
      assert forall j :: 0 <= j < |front| ==> front[j] == elements[j];
    }
    PutFieldsOkIff(m, front);
    if i < |front| {
      assert front[i] == elements[i];
      assert LastOfKey(front, i) by {
        assert forall j :: i < j < |front| ==> front[j] == elements[j];
      }
      PutFieldsLastWins(m, front, i);
      assert KeyOf(elements[|elements| - 1]) != KeyOf(elements[i]);
    }
  }

  /** Once a field lacks `=`, the whole parse fails, whatever follows it. */
  lemma {:induction false} PutFieldsFailsFrom(m: map<string, string>, elements: seq<string>, i: nat)
    requires i <= |elements| && PutFields(m, elements[..i]).Err?
    ensures PutFields(m, elements) == PutFields(m, elements[..i])
    decreases |elements| - i
  {
    if i < |elements| {
      assert elements[..i + 1][..i] == elements[..i];
      PutFieldsFailsFrom(m, elements, i + 1);
    } else {
      assert elements[..i] == elements;
    }
  }

  /** A field with no `=` anywhere among the keyed fields makes the parse fail rather than be skipped. */
  lemma FieldWithoutDelimiterFails(m: map<string, string>, elements: seq<string>, i: nat)
    requires i < |elements| && ValueDelimiter !in elements[i]
    ensures PutFields(m, elements) == Err(IndexOutOfBounds)
  {
    var pre := elements[..i + 1];
    assert pre[..i] == elements[..i];
    assert PutFields(m, pre).Err?;
    PutFieldsFailsFrom(m, elements, i + 1);
  }

  /** The header of a gateway frame. */
  datatype Header = Header(seqNbr: int, deviceName: string, deviceId: string)

  /** What `encodeMessage` leaves behind: no header for an ignored line, and the field map. */
  datatype Frame = Frame(header: Option<Header>, values: map<string, string>)

  /** The line is a gateway frame: at least 5 fields and the node marker `20` first. */
  predicate IsGatewayFrame(elements: seq<string>)
  {
    |elements| >= MinimalSizeMessage && elements[0] == NodeNumberFromGateway
  }

  /** `encodeMessage(data)` applied to an object whose field map is `m`. */
  function ParseFrameInto(data: string, m: map<string, string>): Result<Frame>
  {
    var elements := Split(data, FieldsDelimiter);
    if !IsGatewayFrame(elements) then Ok(Frame(None, m))
    else
      match DataParser.ParseHexaToUnsignedInt(elements[1])
      case None => Err(NumberFormat)
      case Some(sequence) =>
        var name := SanitizeName(elements[2]);
        match DeviceIdOf(elements[3])
        case Err(e) => Err(e)
        case Ok(id) =>
          match PutFields(m, elements[4..])
          case Err(e) => Err(e)
          case Ok(values) => Ok(Frame(Some(Header(ToByte(sequence), name, id)), values))
  }

  /** `new RfLinkBaseMessage(data)`: the parse of a fresh object. */
  function ParseFrame(data: string): Result<Frame>
  {
    ParseFrameInto(data, map[])
  }

  /** A short line or one not from the gateway is ignored: no header and no fields. */
  lemma IgnoredLines(data: string)
    ensures !IsGatewayFrame(Split(data, FieldsDelimiter)) <==> ParseFrame(data) == Ok(Frame(None, map[]))
  {
  }

  /** A header and every field of a frame are what the line carries. */
  lemma FrameContents(data: string)
    requires ParseFrame(data).Ok? && ParseFrame(data).value.header.Some?
    ensures var elements := Split(data, FieldsDelimiter);
      var h := ParseFrame(data).value.header.value;
      && IsGatewayFrame(elements)
      && DataParser.ParseHexaToUnsignedInt(elements[1]).Some?
      && h.seqNbr == ToByte(DataParser.ParseHexaToUnsignedInt(elements[1]).value)
      && -128 <= h.seqNbr <= 127
      && h.deviceName == SanitizeName(elements[2]) && IsName(h.deviceName)
      && DeviceIdOf(elements[3]) == Ok(h.deviceId)
      && PutFields(map[], elements[4..]) == Ok(ParseFrame(data).value.values)
  {
  }

  /** A gateway frame whose sequence number is not hexadecimal is an error. */
  lemma BadSequenceNumber(data: string)
    requires IsGatewayFrame(Split(data, FieldsDelimiter))
    requires DataParser.ParseHexaToUnsignedInt(Split(data, FieldsDelimiter)[1]).None?
    ensures ParseFrame(data) == Err(NumberFormat)
  {
  }

  /** Java's string conversion of a possibly null string. */
  function JavaString(s: Option<string>): string
  {
    if s.None? then "null" else s.value
  }

  /** `getDeviceId()`: device name, `-`, device id. */
  function DeviceIdString(deviceName: Option<string>, deviceId: Option<string>): string
  {
    JavaString(deviceName) + IdDelimiter + JavaString(deviceId)
  }

  /** A name=value pair as a sensor writes it. */
  function FieldText(kv: (string, string)): string
  {
    kv.0 + "=" + kv.1
  }

  function FieldTexts(fields: seq<(string, string)>): (r: seq<string>)
    ensures |r| == |fields| && forall i :: 0 <= i < |r| ==> r[i] == FieldText(fields[i])
  {
    if fields == [] then [] else FieldTexts(fields[..|fields| - 1]) + [FieldText(fields[|fields| - 1])]
  }

  /** The elements of the gateway line a device report is sent as. */
  function FrameElements(seqNbr: nat, name: string, id: string, fields: seq<(string, string)>): seq<string>
  {
    [NodeNumberFromGateway, FormatHex(seqNbr, 2), name, "ID=" + id] + FieldTexts(fields)
  }

  /** The line itself: `20;<seq>;<name>;ID=<id>;<name>=<value>;…;`. */
  function FormatFrame(seqNbr: nat, name: string, id: string, fields: seq<(string, string)>): string
  {
    Terminated(FrameElements(seqNbr, name, id, fields), FieldsDelimiter)
  }

  /** What a well-formed report may carry: names free of `;` and `=`, values free of `;`. */
  predicate WellFormedFields(fields: seq<(string, string)>)
  {
    forall i :: 0 <= i < |fields| ==>
      FieldsDelimiter !in fields[i].0 && ValueDelimiter !in fields[i].0 && FieldsDelimiter !in fields[i].1
  }

  predicate WellFormedReport(seqNbr: nat, name: string, id: string, fields: seq<(string, string)>)
  {
    && seqNbr < 256 && IsName(name) && name != ""
    && id != "" && FieldsDelimiter !in id && ValueDelimiter !in id
    && |fields| >= 1 && WellFormedFields(fields)
  }

  lemma FieldTextSplit(kv: (string, string))
    requires ValueDelimiter !in kv.0
    ensures ValueDelimiter in FieldText(kv)
    ensures KeyOf(FieldText(kv)) == kv.0 && ValueOf(FieldText(kv)) == kv.1
  {
    PrefixIndex(kv.0, '=', kv.1);
    var t := FieldText(kv);
    assert t == kv.0 + ['='] + kv.1;
    assert t[..|kv.0|] == kv.0;
    assert t[|kv.0| + 1..] == kv.1;
  }

  /** A well-formed report line splits back into exactly its elements. */
  lemma FormatFrameSplits(seqNbr: nat, name: string, id: string, fields: seq<(string, string)>)
    requires WellFormedReport(seqNbr, name, id, fields)
    ensures Split(FormatFrame(seqNbr, name, id, fields), FieldsDelimiter) == FrameElements(seqNbr, name, id, fields)
  {
    var texts := FieldTexts(fields);
    var ps := FrameElements(seqNbr, name, id, fields);
    var hex := FormatHex(seqNbr, 2);
    assert FieldsDelimiter !in hex by {
      forall i | 0 <= i < |hex| ensures hex[i] != ';' { assert DigitValue(hex[i]) >= 0; }
    }
    assert FieldsDelimiter !in name by {
      forall i | 0 <= i < |name| ensures name[i] != ';' { assert IsNameChar(name[i]); }
    }
    forall k | 0 <= k < |ps| ensures FieldsDelimiter !in ps[k] {
      if k >= 4 {
        assert ps[k] == texts[k - 4] == fields[k - 4].0 + "=" + fields[k - 4].1;
      }
    }
    assert ps[|ps| - 1] == texts[|texts| - 1];
    assert ValueDelimiter in texts[|texts| - 1];
    SplitTerminated(ps, FieldsDelimiter);
  }

  /** Round trip, header: a well-formed report parses back into its sequence number (as a byte), name and id. */
  lemma FormatParseHeader(seqNbr: nat, name: string, id: string, fields: seq<(string, string)>)
    requires WellFormedReport(seqNbr, name, id, fields)
    ensures ParseFrame(FormatFrame(seqNbr, name, id, fields)).Ok?
    ensures ParseFrame(FormatFrame(seqNbr, name, id, fields)).value.header == Some(Header(ToByte(seqNbr), name, id))
    ensures AllFields(FieldTexts(fields)) && PutFields(map[], FieldTexts(fields)).Ok?
    ensures ParseFrame(FormatFrame(seqNbr, name, id, fields)).value.values == PutFields(map[], FieldTexts(fields)).value
  {
    var texts := FieldTexts(fields);
    var data := FormatFrame(seqNbr, name, id, fields);
    FormatFrameSplits(seqNbr, name, id, fields);
    var elements := FrameElements(seqNbr, name, id, fields);
    assert Split(data, FieldsDelimiter) == elements;
    assert IsGatewayFrame(elements);
    assert elements[1] == FormatHex(seqNbr, 2) && elements[2] == name && elements[3] == "ID=" + id;
    HeaderElements(seqNbr, name, id);
    assert elements[4..] == texts;
    forall i | 0 <= i < |texts| ensures ValueDelimiter in texts[i] {
      FieldTextSplit(fields[i]);
    }
    PutFieldsOkIff(map[], texts);
    var values := PutFields(map[], texts).value;
    assert ParseFrameInto(data, map[]) == Ok(Frame(Some(Header(ToByte(seqNbr), name, id)), values));
  }

  /** The sequence number, the name and the id of a well-formed report read back as written. */
  lemma HeaderElements(seqNbr: nat, name: string, id: string)
    requires seqNbr < 256 && IsName(name) && name != ""
    requires id != "" && ValueDelimiter !in id
    ensures DataParser.ParseHexaToUnsignedInt(FormatHex(seqNbr, 2)) == Some(seqNbr)
    ensures SanitizeName(name) == name
    ensures DeviceIdOf("ID=" + id) == Ok(id)
  {
    ParseFormatHex(seqNbr, 2);
    SanitizeValid(name);
    assert "ID=" + id == "ID" + "=" + id + "";
    DeviceIdBetweenDelimiters("ID", id, "");
  }

  /** Round trip, names: the map holds exactly the names of the report's fields. */
  lemma FormatParseKeys(seqNbr: nat, name: string, id: string, fields: seq<(string, string)>)
    requires WellFormedReport(seqNbr, name, id, fields)
    ensures ParseFrame(FormatFrame(seqNbr, name, id, fields)).Ok?
    ensures ParseFrame(FormatFrame(seqNbr, name, id, fields)).value.values.Keys ==
      set i | 0 <= i < |fields| :: fields[i].0
  {
    var texts := FieldTexts(fields);
    FormatParseHeader(seqNbr, name, id, fields);
    PutFieldsKeys(map[], texts);
    forall i | 0 <= i < |texts| ensures KeyOf(texts[i]) == fields[i].0 {
      FieldTextSplit(fields[i]);
    }
    assert KeySet(texts) == set i | 0 <= i < |fields| :: fields[i].0;
  }

  /** Round trip, values: each name maps to the value of its last field in the report. */
  lemma FormatParseValue(seqNbr: nat, name: string, id: string, fields: seq<(string, string)>, i: int)
    requires WellFormedReport(seqNbr, name, id, fields)
    requires 0 <= i < |fields| && forall j :: i < j < |fields| ==> fields[j].0 != fields[i].0
    ensures ParseFrame(FormatFrame(seqNbr, name, id, fields)).Ok?
    ensures fields[i].0 in ParseFrame(FormatFrame(seqNbr, name, id, fields)).value.values
    ensures ParseFrame(FormatFrame(seqNbr, name, id, fields)).value.values[fields[i].0] == fields[i].1
  {
    var texts := FieldTexts(fields);
    FormatParseHeader(seqNbr, name, id, fields);
    forall j | 0 <= j < |texts| ensures KeyOf(texts[j]) == fields[j].0 && ValueOf(texts[j]) == fields[j].1 {
      FieldTextSplit(fields[j]);
    }
    PutFieldsKeys(map[], texts);
    assert KeyOf(texts[i]) in KeySet(texts);
    PutFieldsLastWins(map[], texts, i);
  }

  /** The example line of the source: five fields, the trailing empty one dropped. */
  lemma ExampleFrame()
    ensures Split("20;31;Mebus;ID=c201;TEMP=00cf;", ';') == ["20", "31", "Mebus", "ID=c201", "TEMP=00cf"]
  {
    var ps := ["20", "31", "Mebus", "ID=c201", "TEMP=00cf"];
    assert Terminated(ps, ';') == "20;31;Mebus;ID=c201;TEMP=00cf;" by {
      assert ps[1..] == ["31", "Mebus", "ID=c201", "TEMP=00cf"];
      assert ps[1..][1..] == ["Mebus", "ID=c201", "TEMP=00cf"];
      assert ps[1..][1..][1..] == ["ID=c201", "TEMP=00cf"];
      assert ps[1..][1..][1..][1..] == ["TEMP=00cf"];
    }
    SplitTerminated(ps, ';');
  }

  /**
   * How a family reads one field of the map: the value `parse` gives it when present (a text
   * that does not parse is Integer.parseInt's NumberFormatException), `current` when absent.
   */
  function FieldValue<T>(values: map<string, string>, key: string, parse: string -> Option<T>, current: T): Result<T>
  {
    if key !in values then Ok(current)
    else match parse(values[key])
      case None => Err(NumberFormat)
      case Some(v) => Ok(v)
  }

  /**
   * RfLinkBaseMessage: the raw line, the header fields (null until a gateway frame is parsed)
   * and the field map the family decoders read.
   */
  class BaseMessage {
    var rawMessage: Option<string>
    var seqNbr: int
    var deviceName: Option<string>
    var deviceId: Option<string>
    var values: map<string, string>

    constructor ()
      ensures rawMessage == None && seqNbr == 0 && deviceName == None && deviceId == None
      ensures values == map[]
    {
      rawMessage := None;
      seqNbr := 0;
      deviceName := None;
      deviceId := None;
      values := map[];
    }

    /** `getDeviceId()`. */
    function DeviceId(): string
      reads this
    {
      DeviceIdString(deviceName, deviceId)
    }

    /**
     * The state `encodeMessage(data)` leaves: the raw line kept; after a parsed gateway frame, its
     * header and its fields added to the map; after an ignored line, the rest as it was.
     */
    twostate predicate Encoded(data: string)
      reads this
    {
      && rawMessage == Some(data)
      && var r := ParseFrameInto(data, old(values));
         && (r.Ok? ==> values == r.value.values)
         && (r.Ok? && r.value.header.None? ==>
               seqNbr == old(seqNbr) && deviceName == old(deviceName) && deviceId == old(deviceId))
         && (r.Ok? && r.value.header.Some? ==>
               && seqNbr == r.value.header.value.seqNbr
               && deviceName == Some(r.value.header.value.deviceName)
               && deviceId == Some(r.value.header.value.deviceId))
    }

    /**
     * `encodeMessage(data)`: the raw line is always kept; a gateway frame sets the header and
     * adds its fields to the map; an ignored line changes nothing else.
     */
    method EncodeMessage(data: string) returns (outcome: Outcome)
      modifies this
      ensures Encoded(data)
      ensures outcome == OutcomeOf(ParseFrameInto(data, old(values)))
    {
      ghost var spec := ParseFrameInto(data, values);
      rawMessage := Some(data);
      var elements := Split(data, FieldsDelimiter);
      var size := |elements|;
      if size >= MinimalSizeMessage {
        if NodeNumberFromGateway == elements[0] {
          var sequence := DataParser.ParseHexaToUnsignedInt(elements[1]);
          if sequence.None? {
            assert spec == Err(NumberFormat);
            return Fail(NumberFormat);
          }
          seqNbr := ToByte(sequence.value);
          deviceName := Some(SanitizeName(elements[2]));
          var idParts := Split(elements[3], ValueDelimiter);
          if |idParts| < 2 {
            assert spec == Err(IndexOutOfBounds);
            return Fail(IndexOutOfBounds);
          }
          deviceId := Some(idParts[1]);
          assert spec == match PutFields(values, elements[4..])
            case Err(e) => Err(e)
            case Ok(v) => Ok(Frame(Some(Header(seqNbr, deviceName.value, deviceId.value)), v));
          outcome := PutValues(elements, 4);
          return;
        }
      }
      assert spec == Ok(Frame(None, values));
      return Pass;
    }

    /**
     * The loop of `encodeMessage` from element `from` on: each `name=value` element put into
     * the field map in order; an element without `=` stops it with the error.
     */
    method PutValues(elements: seq<string>, from: nat) returns (outcome: Outcome)
      requires from <= |elements|
      modifies this
      ensures rawMessage == old(rawMessage) && seqNbr == old(seqNbr)
      ensures deviceName == old(deviceName) && deviceId == old(deviceId)
      ensures var r := PutFields(old(values), elements[from..]);
        && (r.Err? ==> outcome == Fail(r.error))
        && (r.Ok? ==> outcome == Pass && values == r.value)
    {
      ghost var fields := elements[from..];
      assert fields[..0] == [];
      for i := from to |elements|
        invariant PutFields(old(values), fields[..i - from]) == Ok(values)
        invariant rawMessage == old(rawMessage) && seqNbr == old(seqNbr)
        invariant deviceName == old(deviceName) && deviceId == old(deviceId)
      {
        var idx := IndexOf(elements[i], ValueDelimiter);
        assert fields[..i - from + 1][..i - from] == fields[..i - from];
        assert fields[i - from] == elements[i];
        if idx < 0 {
          FieldWithoutDelimiterFails(old(values), fields, i - from);
          return Fail(IndexOutOfBounds);
        }
        var name := elements[i][..idx];
        var value := elements[i][idx + 1..];
        values := values[name := value];
      }
      assert fields[..|elements| - from] == fields;
      return Pass;
    }
  }
}
