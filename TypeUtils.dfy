/**
 * RfLinkTypeUtils: the command-type algebra. Two synonym groups (types with the same meaning),
 * an antonym table pairing opposite commands, percent classification, clamping and the
 * proportional scaling of a percent into an integer range.
 */
module TypeUtils {
  import opened Common
  import opened JavaText

  /** The class of a command or state value (`getClass()`). */
  datatype Kind =
    | UpDownKind | OnOffKind | AllOnOffKind | OpenClosedKind | IncreaseDecreaseKind | StopMoveKind
    | PercentKind | HsbKind | DecimalKind | UnDefKind

  /**
   * The command and state values the binding handles: the enum constants of the framework
   * (ALLON/ALLOFF are the binding's own), percents, colours, decimals and UNDEF.
   */
  datatype Type =
    | Up | Down | On | Off | AllOn | AllOff | Open | Closed | Increase | Decrease | Stop | Move
    | Percent(percent: int)
    | Hsb(hue: int, saturation: int, brightness: int)
    | Decimal(value: int)
    | Undef

  function KindOf(t: Type): Kind
  {
    match t
    case Up | Down => UpDownKind
    case On | Off => OnOffKind
    case AllOn | AllOff => AllOnOffKind
    case Open | Closed => OpenClosedKind
    case Increase | Decrease => IncreaseDecreaseKind
    case Stop | Move => StopMoveKind
    case Percent(_) => PercentKind
    case Hsb(_, _, _) => HsbKind
    case Decimal(_) => DecimalKind
    case Undef => UnDefKind
  }

  /** `instanceof PercentType`: a colour is a percent too, its brightness being its value. */
  predicate IsPercentType(t: Type)
  {
    t.Percent? || t.Hsb?
  }

  function IntValue(t: Type): int
    requires IsPercentType(t)
  {
    if t.Percent? then t.percent else t.brightness
  }

  /** The enum constants, the only values the tables hold. */
  predicate IsConstant(t: Type)
  {
    !(t.Percent? || t.Hsb? || t.Decimal? || t.Undef?)
  }

  /** `toString()` of an enum constant: its name. */
  function Name(t: Type): string
    requires IsConstant(t)
  {
    match t
    case Up => "UP"
    case Down => "DOWN"
    case On => "ON"
    case Off => "OFF"
    case AllOn => "ALLON"
    case AllOff => "ALLOFF"
    case Open => "OPEN"
    case Closed => "CLOSED"
    case Increase => "INCREASE"
    case Decrease => "DECREASE"
    case Stop => "STOP"
    case Move => "MOVE"
  }

  // The declarations of the static block.
  const UpGroup: seq<Type> := [Up, On, AllOn, Open, Increase]
  const DownGroup: seq<Type> := [Down, Off, AllOff, Closed, Decrease]
  const AntonymPairs: seq<(Type, Type)> :=
    [(Up, Down), (On, Off), (AllOn, AllOff), (Open, Closed), (Increase, Decrease)]
  const OtherSupported: seq<Type> := [Move, Stop]

  /** The members of the two declarations, spelled out. */
  predicate InUpGroup(t: Type)
  {
    t == Up || t == On || t == AllOn || t == Open || t == Increase
  }

  predicate InDownGroup(t: Type)
  {
    t == Down || t == Off || t == AllOff || t == Closed || t == Decrease
  }

  /** The spelled-out membership is membership of the declared collections. */
  lemma GroupsListed(t: Type)
    ensures t in UpGroup <==> InUpGroup(t)
    ensures t in DownGroup <==> InDownGroup(t)
  {
    if InUpGroup(t) {
      assert UpGroup[0] == Up && UpGroup[1] == On && UpGroup[2] == AllOn && UpGroup[3] == Open && UpGroup[4] == Increase;
    }
    if InDownGroup(t) {
      assert DownGroup[0] == Down && DownGroup[1] == Off && DownGroup[2] == AllOff;
      assert DownGroup[3] == Closed && DownGroup[4] == Decrease;
    }
  }

  /** The synonym collection a type belongs to, if any. */
  function SynonymGroup(t: Type): Option<seq<Type>>
  {
    if InUpGroup(t) then Some(UpGroup) else if InDownGroup(t) then Some(DownGroup) else None
  }

  /** `TYPE_SYNONYMS_MAP` as the two declarations leave it: each type to its collection's index. */
  function SynonymIndex(): map<Type, nat>
  {
    (map t | t in UpGroup :: 0) + (map t | t in DownGroup :: 1)
  }

  /** The index table hands every grouped type its own group, and no other type any group. */
  lemma SynonymIndexMatchesGroups(t: Type)
    ensures t in SynonymIndex() <==> SynonymGroup(t).Some?
    ensures t in SynonymIndex() ==> SynonymIndex()[t] < 2 && [UpGroup, DownGroup][SynonymIndex()[t]] == SynonymGroup(t).value
  {
    GroupsListed(t);
    if InUpGroup(t) {
      assert SynonymIndex()[t] == 0;
    } else if InDownGroup(t) {
      assert SynonymIndex()[t] == 1;
    }
  }

  /** The antonym table as the five declarations leave it. */
  function AntonymTable(): map<Type, Type>
  {
    map[Up := Down, Down := Up, On := Off, Off := On, AllOn := AllOff, AllOff := AllOn,
        Open := Closed, Closed := Open, Increase := Decrease, Decrease := Increase]
  }

  /** `TYPE_ALL`: every declared type. */
  function SupportedTypes(): set<Type>
  {
    (set t | t in UpGroup) + (set t | t in DownGroup) + (set t | t in OtherSupported)
  }

  /** The declared types are exactly the twelve enum constants. */
  lemma SupportedAreConstants(t: Type)
    ensures t in SupportedTypes() <==> IsConstant(t)
  {
    if IsConstant(t) {
      match t
      case Up => assert UpGroup[0] == t;
      case On => assert UpGroup[1] == t;
      case AllOn => assert UpGroup[2] == t;
      case Open => assert UpGroup[3] == t;
      case Increase => assert UpGroup[4] == t;
      case Down => assert DownGroup[0] == t;
      case Off => assert DownGroup[1] == t;
      case AllOff => assert DownGroup[2] == t;
      case Closed => assert DownGroup[3] == t;
      case Decrease => assert DownGroup[4] == t;
      case Move => assert OtherSupported[0] == t;
      case Stop => assert OtherSupported[1] == t;
    }
  }

  /** The first member of a synonym collection whose class is `kind`, or UNDEF. */
  function FirstOfKind(synonyms: seq<Type>, kind: Kind): (r: Type)
    ensures r != Undef ==> r in synonyms && KindOf(r) == kind
  {
    if synonyms == [] then Undef
    else if KindOf(synonyms[0]) == kind then synonyms[0]
    else FirstOfKind(synonyms[1..], kind)
  }

  /** `getSynonym(t, kind)`: the member of `t`'s group whose class is `kind`, else UNDEF. */
  function SynonymOf(t: Type, kind: Kind): Type
  {
    if InUpGroup(t) then UpMember(kind) else if InDownGroup(t) then DownMember(kind) else Undef
  }

  /** The member-by-class table is what scanning the group in declaration order finds. */
  lemma SynonymOfIsScan(t: Type, kind: Kind)
    ensures SynonymGroup(t).Some? ==> SynonymOf(t, kind) == FirstOfKind(SynonymGroup(t).value, kind)
    ensures SynonymGroup(t).None? ==> SynonymOf(t, kind) == Undef
  {
    GroupMembers(kind);
  }

  /** A synonym found is a member of the type's group, of the class asked for. */
  lemma SynonymIsMember(t: Type, kind: Kind)
    ensures SynonymOf(t, kind) != Undef ==>
      SynonymGroup(t).Some? && SynonymOf(t, kind) in SynonymGroup(t).value && KindOf(SynonymOf(t, kind)) == kind
  {
    GroupsListed(SynonymOf(t, kind));
  }

  /** A synonym is found exactly when the type's group has a member of the class asked for. */
  lemma SynonymExists(t: Type, kind: Kind, s: Type)
    requires SynonymGroup(t).Some? && s in SynonymGroup(t).value && KindOf(s) == kind
    ensures SynonymOf(t, kind) == s
  {
    GroupsListed(s);
  }

  /** Within a group every class appears once, so a member is its own synonym of its class. */
  lemma SynonymOfOwnKind(t: Type)
    requires SynonymGroup(t).Some?
    ensures SynonymOf(t, KindOf(t)) == t
  {
    GroupMembership(t);
  }

  /**
   * `getSynonym` as its loop: the group is scanned in declaration order and the first member
   * of the requested class returned.
   */
  method GetSynonym(t: Type, kind: Kind) returns (r: Type)
    ensures r == SynonymOf(t, kind)
  {
    SynonymOfIsScan(t, kind);
    var synonyms := SynonymGroup(t);
    if synonyms.Some? {
      var i := 0;
      while i < |synonyms.value|
        invariant 0 <= i <= |synonyms.value|
        invariant FirstOfKind(synonyms.value[i..], kind) == FirstOfKind(synonyms.value, kind)
      {
        if KindOf(synonyms.value[i]) == kind {
          return synonyms.value[i];
        }
        assert synonyms.value[i..][1..] == synonyms.value[i + 1..];
        i := i + 1;
      }
    }
    return Undef;
  }

  /**
   * `isSynonym(first, candidate)` as written: the candidate equals the synonym of `first` of
   * the candidate's class. UNDEF is never in a group, so `getSynonym` answers UNDEF for its
   * class, and UNDEF is then a synonym of every type.
   */
  predicate IsSynonymAsWritten(first: Type, candidate: Type)
  {
    candidate == SynonymOf(first, KindOf(candidate))
  }

  /** The as-written test calls UNDEF a synonym of DOWN and of OFF, but not the other way round. */
  lemma UndefIsSynonymOfEverything(first: Type)
    ensures IsSynonymAsWritten(first, Undef)
    ensures IsSynonymAsWritten(Down, Undef) && !IsSynonymAsWritten(Undef, Down)
    ensures IsSynonymAsWritten(Off, Undef) && !IsSynonymAsWritten(Undef, Off)
  {
    GroupMembership(Undef);
  }

  /** `isSynonym` with the UNDEF answer of `getSynonym` read as "no synonym". */
  predicate IsSynonym(first: Type, candidate: Type)
  {
    candidate != Undef && candidate == SynonymOf(first, KindOf(candidate))
  }

  /** Two types are synonyms exactly when they are two members of the same group. */
  lemma IsSynonymIsSameGroup(a: Type, b: Type)
    ensures IsSynonym(a, b) <==> (InUpGroup(a) && InUpGroup(b)) || (InDownGroup(a) && InDownGroup(b))
  {
    GroupMembership(a);
    GroupMembership(b);
  }

  /** `isSynonym` is symmetric. */
  lemma IsSynonymSymmetric(a: Type, b: Type)
    ensures IsSynonym(a, b) <==> IsSynonym(b, a)
  {
    IsSynonymIsSameGroup(a, b);
    IsSynonymIsSameGroup(b, a);
  }

  /** Away from UNDEF the corrected test agrees with the source's. */
  lemma IsSynonymAgrees(a: Type, b: Type)
    requires b != Undef
    ensures IsSynonym(a, b) == IsSynonymAsWritten(a, b)
  {
  }

  /** `getAntonym(t)`: the declared opposite, or null. */
  function GetAntonym(t: Type): (r: Option<Type>)
    ensures r.Some? <==> InUpGroup(t) || InDownGroup(t)
  {
    if t in AntonymTable() then Some(AntonymTable()[t]) else None
  }

  /** The antonym of the antonym is the type itself. */
  lemma AntonymInvolution(t: Type)
    requires GetAntonym(t).Some?
    ensures GetAntonym(GetAntonym(t).value) == Some(t)
  {
  }

  /** The antonym swaps the two groups and keeps the class. */
  lemma AntonymSwapsGroups(t: Type)
    requires GetAntonym(t).Some?
    ensures InUpGroup(t) <==> InDownGroup(GetAntonym(t).value)
    ensures InDownGroup(t) <==> InUpGroup(GetAntonym(t).value)
    ensures KindOf(GetAntonym(t).value) == KindOf(t)
    ensures GetAntonym(t).value != t
  {
  }

  /** The member of the UP group of each class. */
  function UpMember(kind: Kind): Type
  {
    match kind
    case UpDownKind => Up
    case OnOffKind => On
    case AllOnOffKind => AllOn
    case OpenClosedKind => Open
    case IncreaseDecreaseKind => Increase
    case _ => Undef
  }

  /** The member of the DOWN group of each class. */
  function DownMember(kind: Kind): Type
  {
    match kind
    case UpDownKind => Down
    case OnOffKind => Off
    case AllOnOffKind => AllOff
    case OpenClosedKind => Closed
    case IncreaseDecreaseKind => Decrease
    case _ => Undef
  }

  lemma GroupMembers(kind: Kind)
    ensures FirstOfKind(UpGroup, kind) == UpMember(kind)
    ensures FirstOfKind(DownGroup, kind) == DownMember(kind)
  {
    UpGroupMembers(kind);
    DownGroupMembers(kind);
  }

  lemma UpGroupMembers(kind: Kind)
    ensures FirstOfKind(UpGroup, kind) == UpMember(kind)
  {
    assert UpGroup[1..] == [On, AllOn, Open, Increase];
    assert UpGroup[1..][1..] == [AllOn, Open, Increase];
    assert UpGroup[1..][1..][1..] == [Open, Increase];
    assert UpGroup[1..][1..][1..][1..] == [Increase];
  }

  lemma DownGroupMembers(kind: Kind)
    ensures FirstOfKind(DownGroup, kind) == DownMember(kind)
  {
    assert DownGroup[1..] == [Off, AllOff, Closed, Decrease];
    assert DownGroup[1..][1..] == [AllOff, Closed, Decrease];
    assert DownGroup[1..][1..][1..] == [Closed, Decrease];
    assert DownGroup[1..][1..][1..][1..] == [Decrease];
  }

  /** A type is in a group exactly when it is that group's member of its own class. */
  lemma GroupMembership(t: Type)
    ensures InUpGroup(t) <==> t != Undef && UpMember(KindOf(t)) == t
    ensures InDownGroup(t) <==> t != Undef && DownMember(KindOf(t)) == t
  {
  }

  /** Taking the antonym commutes with taking a synonym of a class present in both groups. */
  lemma AntonymOfSynonym(t: Type, kind: Kind)
    requires GetAntonym(t).Some? && SynonymOf(t, kind) != Undef
    ensures GetAntonym(SynonymOf(t, kind)) == Some(SynonymOf(GetAntonym(t).value, kind))
  {
    var other := GetAntonym(t).value;
    AntonymSwapsGroups(t);
    MemberAntonyms(kind);
    if InUpGroup(t) {
      assert SynonymOf(t, kind) == UpMember(kind) && SynonymOf(other, kind) == DownMember(kind);
    } else {
      assert SynonymOf(t, kind) == DownMember(kind) && SynonymOf(other, kind) == UpMember(kind);
    }
  }

  lemma MemberAntonyms(kind: Kind)
    ensures UpMember(kind) != Undef ==> GetAntonym(UpMember(kind)) == Some(DownMember(kind))
    ensures DownMember(kind) != Undef ==> GetAntonym(DownMember(kind)) == Some(UpMember(kind))
  {
  }

  /** `getTypeFromStringValue(s)`: the declared type named `s`, else UNDEF. */
  function TypeNamed(s: string): (r: Type)
    ensures r != Undef ==> IsConstant(r) && Name(r) == s
  {
    if s == "UP" then Up
    else if s == "DOWN" then Down
    else if s == "ON" then On
    else if s == "OFF" then Off
    else if s == "ALLON" then AllOn
    else if s == "ALLOFF" then AllOff
    else if s == "OPEN" then Open
    else if s == "CLOSED" then Closed
    else if s == "INCREASE" then Increase
    else if s == "DECREASE" then Decrease
    else if s == "STOP" then Stop
    else if s == "MOVE" then Move
    else Undef
  }

  /** Every declared type is found back from its name: names are distinct. */
  lemma TypeNamedRoundTrip(t: Type)
    requires IsConstant(t)
    ensures TypeNamed(Name(t)) == t
  {
  }

  /**
   * `getTypeFromStringValue` as its loop over `TYPE_ALL`, in whatever order the set yields its
   * members; since names are distinct the order does not matter.
   */
  method GetTypeFromStringValue(s: string) returns (r: Type)
    ensures r == TypeNamed(s)
  {
    var remaining := SupportedTypes();
    while remaining != {}
      invariant remaining <= SupportedTypes()
      invariant forall t :: t in SupportedTypes() && t !in remaining ==> IsConstant(t) && Name(t) != s
      decreases |remaining|
    {
      var t :| t in remaining;
      SupportedAreConstants(t);
      if Name(t) == s {
        TypeNamedRoundTrip(t);
        return t;
      }
      remaining := remaining - {t};
    }
    var named := TypeNamed(s);
    if named != Undef {
      SupportedAreConstants(named);
      assert false;
    }
    return Undef;
  }

  /** `isClosePercent`: a percent (or colour brightness) above 50. */
  predicate IsClosePercent(t: Type)
  {
    IsPercentType(t) && IntValue(t) > 50
  }

  /** `isOpenPercent`: a percent (or colour brightness) below 50. */
  predicate IsOpenPercent(t: Type)
  {
    IsPercentType(t) && IntValue(t) < 50
  }

  /** `getUpDownTypeFromType`, corrected: DOWN for the DOWN group or above 50%, UP for the UP group or below. */
  function GetUpDownTypeFromType(command: Type): Type
  {
    if IsSynonym(Down, command) || IsClosePercent(command) then Down
    else if IsSynonym(Up, command) || IsOpenPercent(command) then Up
    else Undef
  }

  /** `getOnOffTypeFromType`, corrected: the same classification with OFF and ON. */
  function GetOnOffTypeFromType(command: Type): Type
  {
    if IsSynonym(Off, command) || IsClosePercent(command) then Off
    else if IsSynonym(On, command) || IsOpenPercent(command) then On
    else Undef
  }

  /** The corrected UP/DOWN classification, case by case (UNDEF and other types give UNDEF). */
  lemma UpDownClassification(command: Type)
    ensures InDownGroup(command) ==> GetUpDownTypeFromType(command) == Down
    ensures InUpGroup(command) ==> GetUpDownTypeFromType(command) == Up
    ensures IsPercentType(command) ==>
      GetUpDownTypeFromType(command) == (if IntValue(command) > 50 then Down
                                         else if IntValue(command) < 50 then Up else Undef)
    ensures !InUpGroup(command) && !InDownGroup(command) && !IsPercentType(command) ==>
      GetUpDownTypeFromType(command) == Undef
  {
    IsSynonymIsSameGroup(Down, command);
    IsSynonymIsSameGroup(Up, command);
  }

  /** The corrected ON/OFF classification, case by case (UNDEF and other types give UNDEF). */
  lemma OnOffClassification(command: Type)
    ensures InDownGroup(command) ==> GetOnOffTypeFromType(command) == Off
    ensures InUpGroup(command) ==> GetOnOffTypeFromType(command) == On
    ensures IsPercentType(command) ==>
      GetOnOffTypeFromType(command) == (if IntValue(command) > 50 then Off
                                        else if IntValue(command) < 50 then On else Undef)
    ensures !InUpGroup(command) && !InDownGroup(command) && !IsPercentType(command) ==>
      GetOnOffTypeFromType(command) == Undef
  {
    IsSynonymIsSameGroup(Off, command);
    IsSynonymIsSameGroup(On, command);
  }

  /** `getUpDownTypeFromType` as written, over the as-written `isSynonym`. */
  function GetUpDownTypeFromTypeAsWritten(command: Type): Type
  {
    if IsSynonymAsWritten(Down, command) || IsClosePercent(command) then Down
    else if IsSynonymAsWritten(Up, command) || IsOpenPercent(command) then Up
    else Undef
  }

  /** `getOnOffTypeFromType` as written, over the as-written `isSynonym`. */
  function GetOnOffTypeFromTypeAsWritten(command: Type): Type
  {
    if IsSynonymAsWritten(Off, command) || IsClosePercent(command) then Off
    else if IsSynonymAsWritten(On, command) || IsOpenPercent(command) then On
    else Undef
  }

  /**
   * As written, an UNDEF command is classified DOWN and OFF, although the documented answer
   * for a type that cannot be classified is UNDEF; on every other command the source and the
   * corrected classifications agree.
   */
  lemma ClassificationAsWritten(command: Type)
    ensures GetUpDownTypeFromTypeAsWritten(Undef) == Down && GetUpDownTypeFromType(Undef) == Undef
    ensures GetOnOffTypeFromTypeAsWritten(Undef) == Off && GetOnOffTypeFromType(Undef) == Undef
    ensures command != Undef ==> GetUpDownTypeFromTypeAsWritten(command) == GetUpDownTypeFromType(command)
    ensures command != Undef ==> GetOnOffTypeFromTypeAsWritten(command) == GetOnOffTypeFromType(command)
  {
    UndefIsSynonymOfEverything(Down);
    UndefIsSynonymOfEverything(Off);
    UpDownClassification(Undef);
    OnOffClassification(Undef);
  }

  /** The two classifications agree: OFF exactly where DOWN, ON exactly where UP. */
  lemma OnOffMatchesUpDown(command: Type)
    ensures GetOnOffTypeFromType(command) == Off <==> GetUpDownTypeFromType(command) == Down
    ensures GetOnOffTypeFromType(command) == On <==> GetUpDownTypeFromType(command) == Up
  {
    UpDownClassification(command);
    OnOffClassification(command);
  }

  /** `boundDecimal(v, min, max)`: null stays null; below min gives min, above max gives max. */
  function BoundDecimal(input: Option<int>, minValue: int, maxValue: int): (r: Option<int>)
    ensures r.Some? <==> input.Some?
  {
    match input
    case None => None
    case Some(v) => if v < minValue then Some(minValue) else if v > maxValue then Some(maxValue) else input
  }

  /** With ordered bounds the result lies within them, and a value already inside is unchanged. */
  lemma BoundDecimalClamps(v: int, minValue: int, maxValue: int)
    requires minValue <= maxValue
    ensures var r := BoundDecimal(Some(v), minValue, maxValue).value;
      && minValue <= r <= maxValue
      && (minValue <= v <= maxValue ==> r == v)
      && (v < minValue ==> r == minValue) && (v > maxValue ==> r == maxValue)
  {
  }

  /** Clamping twice is clamping once. */
  lemma BoundDecimalIdempotent(input: Option<int>, minValue: int, maxValue: int)
    requires minValue <= maxValue
    ensures BoundDecimal(BoundDecimal(input, minValue, maxValue), minValue, maxValue) ==
            BoundDecimal(input, minValue, maxValue)
  {
  }

  /** A Java `int` result: the value reduced to 32-bit two's complement. */
  function Int32(v: int): (r: int)
    ensures IntMin <= r <= IntMax
    ensures IntMin <= v <= IntMax ==> r == v
  {
    (v - IntMin) % 0x1_0000_0000 + IntMin
  }

  /**
   * `toDecimalType(p, min, max)`: null gives null; unless `min < max` an IllegalArgumentException;
   * otherwise `(max - min) * p / 100 + min` in 32-bit arithmetic with truncating division.
   */
  function ToDecimalType(input: Option<int>, minValue: int, maxValue: int): (r: Result<Option<int>>)
    ensures input.None? ==> r == Ok(None)
    ensures input.Some? && minValue >= maxValue ==> r == Err(IllegalArgument)
    ensures input.Some? && minValue < maxValue ==> r.Ok? && r.value.Some?
  {
    match input
    case None => Ok(None)
    case Some(p) =>
      if minValue < maxValue then
        Ok(Some(Int32(JavaDiv(Int32(Int32(maxValue - minValue) * p), 100) + minValue)))
      else Err(IllegalArgument)
  }

  /** No 32-bit overflow: the whole range times 100 fits in an `int`. */
  predicate ScalesExactly(minValue: int, maxValue: int)
  {
    IntMin <= minValue < maxValue <= IntMax && (maxValue - minValue) * 100 <= IntMax
  }

  /** Without overflow, a percent in [0, 100] maps into [min, max], 0 to min and 100 to max. */
  lemma ToDecimalTypeRange(p: int, minValue: int, maxValue: int)
    requires ScalesExactly(minValue, maxValue) && 0 <= p <= 100
    ensures var r := ToDecimalType(Some(p), minValue, maxValue).value.value;
      && r == (maxValue - minValue) * p / 100 + minValue
      && minValue <= r <= maxValue
      && (p == 0 ==> r == minValue) && (p == 100 ==> r == maxValue)
  {
    var span := maxValue - minValue;
    assert 0 <= span * p <= span * 100 by {
      MulMonotone(span, p, 100);
    }
    assert Int32(maxValue - minValue) == span;
    assert Int32(span * p) == span * p;
    assert JavaDiv(span * p, 100) == span * p / 100;
    assert span * p / 100 <= span;
  }

  lemma MulMonotone(a: nat, p: nat, q: nat)
    requires p <= q
    ensures a * p <= a * q
  {
  }

  /** Without overflow, the scaling is monotone in the percent. */
  lemma ToDecimalTypeMonotone(p: int, q: int, minValue: int, maxValue: int)
    requires ScalesExactly(minValue, maxValue) && 0 <= p <= q <= 100
    ensures ToDecimalType(Some(p), minValue, maxValue).value.value <=
            ToDecimalType(Some(q), minValue, maxValue).value.value
  {
    ToDecimalTypeRange(p, minValue, maxValue);
    ToDecimalTypeRange(q, minValue, maxValue);
    var span := maxValue - minValue;
    MulMonotone(span, p, q);
    DivMonotone(span * p, span * q);
  }

  lemma DivMonotone(x: nat, y: nat)
    requires x <= y
    ensures x / 100 <= y / 100
  {
  }

  /** `getOnOffCommandFromDimming(d)`: ON above zero, OFF otherwise. */
  function GetOnOffCommandFromDimming(dimming: int): (r: Type)
    ensures r == On || r == Off
    ensures r == On <==> dimming > 0
  {
    if dimming > 0 then On else Off
  }

  /** Scaling a percent onto 0..100 and reading it back as a dimmer: ON exactly for a positive percent. */
  lemma DimmingOfScaledPercent(p: int)
    requires 0 <= p <= 100
    ensures GetOnOffCommandFromDimming(ToDecimalType(Some(p), 0, 100).value.value) == (if p > 0 then On else Off)
  {
    ToDecimalTypeRange(p, 0, 100);
  }

  /**
   * The tables of the static block, built as the source builds them. `groups` are the synonym
   * collections in creation order; `synonymOf` maps each declared type to the index of its
   * collection, so the types of one declaration share one collection as in the source.
   */
  class TypeTables {
    var groups: seq<seq<Type>>
    var synonymOf: map<Type, nat>
    var antonyms: map<Type, Type>
    var all: set<Type>

    /** The static initialiser: two synonym groups, five antonym pairs, MOVE and STOP. */
    constructor ()
      ensures groups == [UpGroup, DownGroup] && synonymOf == SynonymIndex()
      ensures antonyms == AntonymTable()
      ensures all == SupportedTypes()
    {
      groups := [];
      synonymOf := map[];
      antonyms := map[];
      all := {};
      new;
      DeclareSynonymGroups();
      DeclareAntonymPairs();
      DeclareSupportedTypes(OtherSupported);
    }

    /** The first part of the static block: the two synonym declarations. */
    method DeclareSynonymGroups()
      requires groups == [] && synonymOf == map[] && all == {}
      modifies this
      ensures groups == [UpGroup, DownGroup] && synonymOf == SynonymIndex()
      ensures all == (set t | t in UpGroup) + (set t | t in DownGroup)
      ensures antonyms == old(antonyms)
    {
      DeclareSynonyms(UpGroup);
      DeclareSynonyms(DownGroup);
      assert synonymOf == map[] + (map t | t in UpGroup :: 0) + (map t | t in DownGroup :: 1);
    }

    /** The second part of the static block: the five antonym declarations. */
    method DeclareAntonymPairs()
      requires antonyms == map[] && all == (set t | t in UpGroup) + (set t | t in DownGroup)
      modifies this
      ensures antonyms == AntonymTable()
      ensures all == old(all) && groups == old(groups) && synonymOf == old(synonymOf)
    {
      DeclareAntonyms(Up, Down);
      DeclareAntonyms(On, Off);
      DeclareAntonyms(AllOn, AllOff);
      DeclareAntonyms(Open, Closed);
      DeclareAntonyms(Increase, Decrease);
    }

    /** `declareSynonyms`: one new collection shared by all the given types, which become supported. */
    method DeclareSynonyms(synonyms: seq<Type>)
      modifies this
      ensures groups == old(groups) + [synonyms]
      ensures synonymOf == old(synonymOf) + map t | t in synonyms :: |old(groups)|
      ensures antonyms == old(antonyms)
      ensures all == old(all) + set t | t in synonyms
    {
      var index := |groups|;
      groups := groups + [[]];
      for i := 0 to |synonyms|
        invariant groups == old(groups) + [synonyms[..i]]
        invariant synonymOf == old(synonymOf) + map t | t in synonyms[..i] :: index
        invariant antonyms == old(antonyms) && all == old(all)
      {
        groups := groups[index := groups[index] + [synonyms[i]]];
        assert synonyms[..i + 1] == synonyms[..i] + [synonyms[i]];
        synonymOf := synonymOf[synonyms[i] := index];
      }
      assert synonyms[..|synonyms|] == synonyms;
      DeclareSupportedTypes(synonyms);
    }

    /** `declareAntonyms`: each of the two becomes the other's antonym, and both are supported. */
    method DeclareAntonyms(firstType: Type, antonym: Type)
      modifies this
      ensures antonyms == old(antonyms)[firstType := antonym][antonym := firstType]
      ensures all == old(all) + {firstType, antonym}
      ensures groups == old(groups) && synonymOf == old(synonymOf)
    {
      antonyms := antonyms[firstType := antonym];
      antonyms := antonyms[antonym := firstType];
      all := all + {firstType};
      all := all + {antonym};
    }

    /** `declareSupportedTypes`: the given types are added to the supported set. */
    method DeclareSupportedTypes(types: seq<Type>)
      modifies this
      ensures all == old(all) + set t | t in types
      ensures groups == old(groups) && synonymOf == old(synonymOf) && antonyms == old(antonyms)
    {
      for i := 0 to |types|
        invariant all == old(all) + set t | t in types[..i]
        invariant groups == old(groups) && synonymOf == old(synonymOf) && antonyms == old(antonyms)
      {
        assert types[..i + 1] == types[..i] + [types[i]];
        all := all + {types[i]};
      }
      assert types[..|types|] == types;
    }
  }
}
