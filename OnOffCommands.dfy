/**
 * The `Commands` enums of the switch, Oregon and WH1080 families: three constants, each with
 * the text a sensor sends and the on/off state it stands for (none for UNKNOWN).
 */
module OnOffCommands {
  import opened Common
  import opened JavaText
  import TypeUtils

  datatype Command = Off | On | Unknown

  /** `getOnOffType()`: OFF and ON carry a state, UNKNOWN carries null. */
  function OnOffOf(c: Command): (r: Option<bool>)
    ensures r.None? <==> c == Unknown
    ensures r == Some(true) <==> c == On
  {
    match c
    case Off => Some(false)
    case On => Some(true)
    case Unknown => None
  }

  /** An enum's constants in declaration order (`values()`), each with its text. */
  type Table = seq<(Command, string)>

  /** RfLinkSwitchMessage.Commands: OFF "OFF", ON "ON", UNKNOWN "". */
  const SwitchTexts: Table := [(Off, "OFF"), (On, "ON"), (Unknown, "")]

  /** The battery enum of the Oregon and WH1080 families: OFF "OK" (not low), ON "LOW", UNKNOWN "". */
  const BatteryTexts: Table := [(Off, "OK"), (On, "LOW"), (Unknown, "")]

  /** What `fromString(text)` answers: the first constant whose text matches ignoring case, or null. */
  function Lookup(table: Table, text: string): Option<Command>
  {
    if table == [] then None
    else if EqualsIgnoreCase(text, table[0].1) then Some(table[0].0)
    else Lookup(table[1..], text)
  }

  /** A lookup finds the first matching constant, and fails only when no text matches. */
  lemma {:induction false} LookupFirstMatch(table: Table, text: string)
    ensures Lookup(table, text).None? <==> forall i :: 0 <= i < |table| ==> !EqualsIgnoreCase(text, table[i].1)
    ensures Lookup(table, text).Some? ==>
      exists i :: 0 <= i < |table| && table[i].0 == Lookup(table, text).value && EqualsIgnoreCase(text, table[i].1)
        && forall j :: 0 <= j < i ==> !EqualsIgnoreCase(text, table[j].1)
  {
    if table != [] && !EqualsIgnoreCase(text, table[0].1) {
      LookupFirstMatch(table[1..], text);
      if Lookup(table, text).Some? {
        var i :| 0 <= i < |table[1..]| && table[1..][i].0 == Lookup(table, text).value
          && EqualsIgnoreCase(text, table[1..][i].1)
          && forall j :: 0 <= j < i ==> !EqualsIgnoreCase(text, table[1..][j].1);
        assert table[i + 1] == table[1..][i];
        forall j | 0 <= j < i + 1 ensures !EqualsIgnoreCase(text, table[j].1) {
          if j > 0 { assert table[j] == table[1..][j - 1]; }
        }
      }
    }
  }

  /** `Commands.fromString(text)`: the loop over `values()`. */
  method FromString(table: Table, text: string) returns (r: Option<Command>)
    ensures r == Lookup(table, text)
  {
    var i := 0;
    while i < |table|
      invariant 0 <= i <= |table|
      invariant Lookup(table, text) == Lookup(table[i..], text)
    {
      assert table[i..][1..] == table[i + 1..];
      if EqualsIgnoreCase(text, table[i].1) {
        return Some(table[i].0);
      }
      i := i + 1;
    }
    return None;
  }

  /**
   * How the families store a looked-up command: an unknown text is caught and becomes
   * UNKNOWN rather than an error.
   */
  function CommandOf(table: Table, text: string): Command
  {
    match Lookup(table, text)
    case Some(c) => c
    case None => Unknown
  }

  /** Switch CMD: `ON` and `OFF` in any case; every other text is UNKNOWN. */
  lemma SwitchCommandText(text: string)
    ensures CommandOf(SwitchTexts, text) == On <==> EqualsIgnoreCase(text, "ON")
    ensures CommandOf(SwitchTexts, text) == Off <==> EqualsIgnoreCase(text, "OFF")
    ensures CommandOf(SwitchTexts, text) == Unknown <==> !EqualsIgnoreCase(text, "ON") && !EqualsIgnoreCase(text, "OFF")
  {
    var rest := [(On, "ON"), (Unknown, "")];
    assert SwitchTexts[1..] == rest && rest[1..] == [(Unknown, "")];
    assert Lookup([(Unknown, "")][1..], text) == None;
    if EqualsIgnoreCase(text, "OFF") {
      assert Lookup(SwitchTexts, text) == Some(Off);
    } else if EqualsIgnoreCase(text, "ON") {
      assert Lookup(SwitchTexts, text) == Lookup(rest, text) == Some(On);
    } else {
      assert Lookup(SwitchTexts, text) == Lookup(rest, text) == Lookup([(Unknown, "")], text);
    }
  }

  /** Battery BAT: `OK` (not low) and `LOW` in any case; every other text is UNKNOWN. */
  lemma BatteryCommandText(text: string)
    ensures CommandOf(BatteryTexts, text) == Off <==> EqualsIgnoreCase(text, "OK")
    ensures CommandOf(BatteryTexts, text) == On <==> EqualsIgnoreCase(text, "LOW")
    ensures CommandOf(BatteryTexts, text) == Unknown <==> !EqualsIgnoreCase(text, "OK") && !EqualsIgnoreCase(text, "LOW")
  {
    var rest := [(On, "LOW"), (Unknown, "")];
    assert BatteryTexts[1..] == rest && rest[1..] == [(Unknown, "")];
    assert Lookup([(Unknown, "")][1..], text) == None;
    if EqualsIgnoreCase(text, "OK") {
      assert Lookup(BatteryTexts, text) == Some(Off);
    } else if EqualsIgnoreCase(text, "LOW") {
      assert Lookup(BatteryTexts, text) == Lookup(rest, text) == Some(On);
    } else {
      assert Lookup(BatteryTexts, text) == Lookup(rest, text) == Lookup([(Unknown, "")], text);
    }
  }

  /** The empty text is the UNKNOWN constant's own text, so it is found rather than missed. */
  lemma EmptyTextIsUnknown()
    ensures Lookup(SwitchTexts, "") == Some(Unknown)
    ensures Lookup(BatteryTexts, "") == Some(Unknown)
  {
    assert SwitchTexts[1..][1..] == [(Unknown, "")];
    assert BatteryTexts[1..][1..] == [(Unknown, "")];
  }

  /**
   * `Commands.fromCommand(command)` of the battery enums: the constant whose on/off state is the
   * command; UNKNOWN, whose state is null, is never the answer.
   */
  function FromCommand(command: TypeUtils.Type): Option<Command>
  {
    match command
    case Off => Some(Off)
    case On => Some(On)
    case _ => None
  }

  /** `fromCommand` inverts `getOnOffType`: the constants with a state are found from it, and only they. */
  lemma FromCommandInverts(c: Command, command: TypeUtils.Type)
    ensures c != Unknown ==> FromCommand(if c == On then TypeUtils.On else TypeUtils.Off) == Some(c)
    ensures FromCommand(command).Some? <==> command == TypeUtils.On || command == TypeUtils.Off
    ensures FromCommand(command).Some? ==> OnOffOf(FromCommand(command).value) == Some(command == TypeUtils.On)
  {
  }
}
