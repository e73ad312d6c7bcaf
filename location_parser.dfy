/**
 * Classroom locations as the university timetable writes them: a building
 * code and a room number joined by a dash ("401-101"), the Miryang
 * sub-building forms ("밀양M01-1-203"), or the online marker "사이버수업".
 *
 * `ParseWith` is the parser with the building-name lookup as a parameter;
 * `ParseLocation` fixes that lookup to the campus tables. The lemmas hold
 * for every lookup, so in particular for `ParseLocation`.
 */
module LocationParser {
  import opened Common
  import opened Campus

  const CyberClass: string := "사이버수업"

  datatype Kind = Online | Offline | Unknown

  /** The dict `parse_location` returns. */
  datatype ParsedLocation = ParsedLocation(
    kind: Kind, buildingCode: Option<string>, buildingName: Option<string>,
    room: Option<string>, fullLabel: string)

  /** A special Miryang prefix and the building code it stands for. */
  datatype SpecialPrefix = SpecialPrefix(prefix: string, code: string)

  /** The six special prefixes, in the order the source tests them. */
  const SpecialPrefixes: seq<SpecialPrefix> := [
    SpecialPrefix("M01-1-", "M01-1"),
    SpecialPrefix("밀양M01-1-", "M01-1"),
    SpecialPrefix("밀양 M01-1-", "M01-1"),
    SpecialPrefix("M05-1-", "M05-1"),
    SpecialPrefix("밀양M05-1-", "M05-1"),
    SpecialPrefix("밀양 M05-1-", "M05-1")
  ]

  /** The first special prefix that `t` starts with. */
  function FirstSpecial(t: string, ps: seq<SpecialPrefix>): (r: Option<SpecialPrefix>)
    ensures r.Some? ==> r.value in ps && StartsWith(t, r.value.prefix)
    ensures r.None? ==> forall p :: p in ps ==> !StartsWith(t, p.prefix)
  {
    if ps == [] then None
    else if StartsWith(t, ps[0].prefix) then Some(ps[0])
    else FirstSpecial(t, ps[1..])
  }

  /** The prefix found is the one at index `i` when none before it fits. */
  lemma {:induction false} FirstSpecialIs(t: string, ps: seq<SpecialPrefix>, i: nat)
    requires i < |ps| && StartsWith(t, ps[i].prefix)
    requires forall j :: 0 <= j < i ==> !StartsWith(t, ps[j].prefix)
    ensures FirstSpecial(t, ps) == Some(ps[i])
  {
    if i > 0 {
      assert forall j :: 0 <= j < i - 1 ==> ps[1..][j] == ps[j + 1];
      FirstSpecialIs(t, ps[1..], i - 1);
    }
  }

  /** The building-code characters of the general form, `[가-힣A-Z0-9]`. */
  predicate IsCodeChar(c: char)
  {
    IsHangul(c) || IsAsciiUpper(c) || IsDigit(c)
  }

  /** `re.match(r"^([가-힣A-Z0-9]+)-(\d+)$", t)` and its two groups. */
  function MatchCodeRoom(t: string): Option<(string, string)>
  {
    var k := Span(t, 0, IsCodeChar);
    if 0 < k && k + 1 < |t| && t[k] == '-' && AllDigits(t[k + 1..]) then Some((t[..k], t[k + 1..]))
    else None
  }

  predicate AllCodeChars(s: string)
  {
    forall i :: 0 <= i < |s| ==> IsCodeChar(s[i])
  }

  /** The pattern matches exactly the texts `code + "-" + room` with the character classes it names. */
  lemma MatchCodeRoomMeaning(t: string, code: string, room: string)
    ensures MatchCodeRoom(t) == Some((code, room)) <==>
      t == code + "-" + room && code != [] && AllCodeChars(code) && room != [] && AllDigits(room)
  {
    var k := Span(t, 0, IsCodeChar);
    if t == code + "-" + room && code != [] && AllCodeChars(code) && room != [] && AllDigits(room) {
      assert t[|code|] == '-' && !IsCodeChar('-');
      assert forall i :: 0 <= i < |code| ==> t[i] == code[i];
      assert k == |code|;
      assert t[..k] == code && t[k + 1..] == room;
    }
    if MatchCodeRoom(t) == Some((code, room)) {
      assert t == t[..k] + "-" + t[k + 1..];
    }
  }

  /** `re.sub(r"^(양산|밀양|아미)", "", code)`: drops one leading campus name. */
  function CleanCampusPrefix(code: string): (r: string)
    ensures StartsWith(code, "양산") || StartsWith(code, "밀양") || StartsWith(code, "아미") ==>
      code == code[..2] + r
    ensures !(StartsWith(code, "양산") || StartsWith(code, "밀양") || StartsWith(code, "아미")) ==>
      r == code
  {
    if StartsWith(code, "양산") || StartsWith(code, "밀양") || StartsWith(code, "아미") then code[2..] else code
  }

  /** `parse_location(text)` with `names` in the place of `search_campus`. */
  function ParseWith(text: string, names: string -> string): ParsedLocation
  {
    var t := Strip(text);
    if t == CyberClass then
      ParsedLocation(Online, None, None, None, CyberClass)
    else
      match FirstSpecial(t, SpecialPrefixes)
      case Some(p) =>
        ParsedLocation(Offline, Some(p.code), Some(names(p.code)), Some(t[|p.prefix|..]), t)
      case None =>
        match MatchCodeRoom(t)
        case Some((code, room)) =>
          var c := CleanCampusPrefix(code);
          ParsedLocation(Offline, Some(c), Some(names(c)), Some(room), c + "-" + room)
        case None =>
          ParsedLocation(Unknown, None, None, None, t)
  }

  /** `parse_location(text)`. */
  function ParseLocation(text: string): ParsedLocation
  {
    ParseWith(text, SearchCampus)
  }

  /** Exactly the stripped text "사이버수업" is online, with no building or room. */
  lemma ParseOnline(text: string, names: string -> string)
    ensures ParseWith(text, names).kind == Online <==> Strip(text) == CyberClass
    ensures ParseWith(text, names).kind == Online ==>
      ParseWith(text, names) == ParsedLocation(Online, None, None, None, CyberClass)
  {
  }

  /** At most one special prefix fits a text: any two differ at one of the first six places. */
  lemma SpecialPrefixesExclusive(t: string, i: nat, j: nat)
    requires i < j < |SpecialPrefixes|
    ensures !(StartsWith(t, SpecialPrefixes[i].prefix) && StartsWith(t, SpecialPrefixes[j].prefix))
  {
    var p, q := SpecialPrefixes[i].prefix, SpecialPrefixes[j].prefix;
    if StartsWith(t, p) {
      assert t[0] == p[0] && t[2] == p[2] && t[4] == p[4] && t[5] == p[5];
    }
    if StartsWith(t, q) {
      assert t[0] == q[0] && t[2] == q[2] && t[4] == q[4] && t[5] == q[5];
    }
  }

  /**
   * A text that starts with one of the six special prefixes is offline in
   * that prefix's building, the room is whatever follows the prefix, and the
   * label is the whole stripped text.
   */
  lemma ParseSpecial(text: string, i: nat, names: string -> string)
    requires i < |SpecialPrefixes|
    requires StartsWith(Strip(text), SpecialPrefixes[i].prefix)
    ensures var p := SpecialPrefixes[i]; var t := Strip(text);
      ParseWith(text, names) ==
        ParsedLocation(Offline, Some(p.code), Some(names(p.code)), Some(t[|p.prefix|..]), t)
  {
    SpecialFound(Strip(text), i);
  }

  /** A text starting with the special prefix at `i` is not the online marker, and that prefix is the first to fit. */
  lemma SpecialFound(t: string, i: nat)
    requires i < |SpecialPrefixes|
    requires StartsWith(t, SpecialPrefixes[i].prefix)
    ensures t != CyberClass && FirstSpecial(t, SpecialPrefixes) == Some(SpecialPrefixes[i])
  {
    assert t[0] == SpecialPrefixes[i].prefix[0];
    forall j | 0 <= j < i
      ensures !StartsWith(t, SpecialPrefixes[j].prefix)
    {
      SpecialPrefixesExclusive(t, j, i);
    }
    FirstSpecialIs(t, SpecialPrefixes, i);
  }

  /** In a text of the general form the only dash follows the code, and no character is a space. */
  lemma GeneralFormChar(t: string, code: string, room: string, k: nat)
    requires t == code + "-" + room && AllCodeChars(code) && AllDigits(room)
    requires k < |t|
    ensures t[k] == '-' <==> k == |code|
    ensures t[k] != ' '
  {
    if k < |code| {
      assert t[k] == code[k];
    } else if k > |code| {
      assert t[k] == room[k - |code| - 1];
    }
  }

  /** No text of the general form starts with a special prefix: each has a second dash or a space. */
  lemma SpecialNotGeneral(t: string, code: string, room: string, p: SpecialPrefix)
    requires p in SpecialPrefixes
    requires t == code + "-" + room && AllCodeChars(code) && AllDigits(room)
    ensures !StartsWith(t, p.prefix)
  {
    if p == SpecialPrefixes[0] || p == SpecialPrefixes[3] {
      if |t| >= 6 {
        GeneralFormChar(t, code, room, 3);
        GeneralFormChar(t, code, room, 5);
      }
    } else if p == SpecialPrefixes[1] || p == SpecialPrefixes[4] {
      if |t| >= 8 {
        GeneralFormChar(t, code, room, 5);
        GeneralFormChar(t, code, room, 7);
      }
    } else if |t| >= 3 {
      GeneralFormChar(t, code, room, 2);
    }
  }

  /**
   * A text of the general form is offline: the code loses one leading campus
   * name, the building name is looked up on what is left, the room is all
   * digits, and the label is the cleaned code, a dash and the room.
   */
  lemma ParseGeneral(text: string, code: string, room: string, names: string -> string)
    requires Strip(text) == code + "-" + room
    requires code != [] && AllCodeChars(code) && room != [] && AllDigits(room)
    ensures var c := CleanCampusPrefix(code);
      ParseWith(text, names) == ParsedLocation(Offline, Some(c), Some(names(c)), Some(room), c + "-" + room)
  {
    var t := Strip(text);
    MatchCodeRoomMeaning(t, code, room);
    assert t != CyberClass by {
      if |t| == |CyberClass| {
        assert t[|code|] == '-' && CyberClass[|code|] != '-';
      }
    }
    assert FirstSpecial(t, SpecialPrefixes).None? by {
      forall p | p in SpecialPrefixes ensures !StartsWith(t, p.prefix) {
        SpecialNotGeneral(t, code, room, p);
      }
    }
  }

  /** Text of no known form is unknown, with no building or room, labelled by the stripped text. */
  lemma ParseUnknown(text: string, names: string -> string)
    requires Strip(text) != CyberClass
    requires forall p :: p in SpecialPrefixes ==> !StartsWith(Strip(text), p.prefix)
    requires MatchCodeRoom(Strip(text)).None?
    ensures ParseWith(text, names) == ParsedLocation(Unknown, None, None, None, Strip(text))
  {
  }

  /** Every offline result names its building by looking its code up, and has a room; no other result has either. */
  lemma OfflineNamesBuilding(text: string, names: string -> string)
    ensures var r := ParseWith(text, names);
      r.kind == Offline ==>
        r.buildingCode.Some? && r.room.Some? && r.buildingName == Some(names(r.buildingCode.value))
    ensures var r := ParseWith(text, names);
      r.kind != Offline ==> r.buildingCode.None? && r.buildingName.None? && r.room.None?
  {
  }

  /** Worked examples from the timetable. */
  lemma ParseExampleGeneral(text: string, names: string -> string)
    requires text == "401-101"
    ensures ParseWith(text, names) == ParsedLocation(Offline, Some("401"), Some(names("401")), Some("101"), "401-101")
  {
    StripUnchanged(text);
    var code, room := "401", "101";
    assert text == code + "-" + room;
    assert AllCodeChars(code) && AllDigits(room);
    assert CleanCampusPrefix(code) == code;
    ParseGeneral(text, code, room, names);
  }

  lemma ParseExampleCyber(text: string, names: string -> string)
    requires text == " 사이버수업 "
    ensures ParseWith(text, names) == ParsedLocation(Online, None, None, None, "사이버수업")
  {
    assert LeadingSpace(text) == 1 by {
      assert LeadingSpace(text[1..]) == 0;
    }
    assert text[1..] == "사이버수업 ";
    assert TrailingSpace(text[1..]) == 1 by {
      assert text[1..][..|text[1..]| - 1] == "사이버수업";
    }
    assert Strip(text) == "사이버수업";
  }

  lemma ParseExampleMiryang(text: string, names: string -> string)
    requires text == "밀양M02-101"
    ensures ParseWith(text, names) == ParsedLocation(Offline, Some("M02"), Some(names("M02")), Some("101"), "M02-101")
  {
    StripUnchanged(text);
    var code, room := "밀양M02", "101";
    assert text == code + "-" + room;
    assert AllCodeChars(code) && AllDigits(room);
    assert CleanCampusPrefix(code) == "M02";
    assert "M02" + "-" + room == "M02-101";
    ParseGeneral(text, code, room, names);
  }

  lemma ParseExampleSpecial(text: string, names: string -> string)
    requires text == "밀양M01-1-203"
    ensures ParseWith(text, names) ==
      ParsedLocation(Offline, Some("M01-1"), Some(names("M01-1")), Some("203"), "밀양M01-1-203")
  {
    StripUnchanged(text);
    assert StartsWith(text, SpecialPrefixes[1].prefix);
    ParseSpecial(text, 1, names);
  }
}
