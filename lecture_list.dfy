/**
 * The list of a user's lectures: an empty message for no lectures, and per
 * lecture its course id, its schedule lines, or a note that it has none;
 * each schedule line shows a location worked out from the building details
 * or the raw location text.
 */
module LectureList {
  import opened Common
  import opened LectureView

  const Unplaced := "장소 미정"
  const NoLectures := "강의가 없습니다."
  const NoSchedule := "시간표 정보 없음"

  /** Details that name a building (by name or code) and a room. */
  predicate Placed(s: Schedule)
  {
    s.details.Some? && (Truthy(s.details.value.buildingName) || Truthy(s.details.value.buildingCode))
    && Truthy(s.details.value.roomNumber)
  }

  /** `"<building_name || building_code> <room_number>호"`. */
  function PlacedText(d: Details): string
  {
    (if Truthy(d.buildingName) then d.buildingName.value else if d.buildingCode.Some? then d.buildingCode.value else "")
    + " " + (if d.roomNumber.Some? then d.roomNumber.value else "") + "호"
  }

  /** `locationText`: the default, then the details' text, then the raw location in its place. */
  function LocationText(s: Schedule): string
  {
    var fromDetails := if Placed(s) then PlacedText(s.details.value) else Unplaced;
    if (s.details.None? || fromDetails == Unplaced) && Truthy(s.location) then s.location.value
    else fromDetails
  }

  /**
   * Details with a building and a room always give their own text, which
   * the raw location never replaces; otherwise the raw location is shown when
   * it is truthy, and "장소 미정" when it is not. The text is never empty.
   */
  lemma LocationTextMeaning(s: Schedule)
    ensures Placed(s) ==> LocationText(s) == PlacedText(s.details.value)
    ensures !Placed(s) && Truthy(s.location) ==> LocationText(s) == s.location.value
    ensures !Placed(s) && !Truthy(s.location) ==> LocationText(s) == Unplaced
    ensures LocationText(s) != ""
  {
    if Placed(s) {
      var t := PlacedText(s.details.value);
      assert t[|t| - 1] == '호' && Unplaced[|Unplaced| - 1] == '정';
    }
  }

  /** One schedule line: `"<weekday>요일"`, `"<start> ~ <end>"`, and the location. */
  datatype Line = Line(day: string, time: string, location: string)

  /** The schedule part of a block. */
  datatype Schedules = Missing | Lines(lines: seq<Line>)

  /** One lecture block: its title, its course-id line when there is an id, and its schedules. */
  datatype Block = Block(title: Option<string>, courseId: Option<string>, schedules: Schedules)

  /** The component's output. */
  datatype View = Empty | Blocks(blocks: seq<Block>)

  function LineOf(s: Schedule): Line
  {
    Line(s.weekday + "요일", s.start + " ~ " + s.end, LocationText(s))
  }

  function BlockOf(l: Lecture): Block
  {
    Block(l.name, if Truthy(l.platoCourseId) then l.platoCourseId else None,
          if HasSchedules(l) then Lines(seq(|l.schedules.value|, i requires 0 <= i < |l.schedules.value| => LineOf(l.schedules.value[i])))
          else Missing)
  }

  function Render(lectures: Option<seq<Lecture>>): View
  {
    if lectures.None? || |lectures.value| == 0 then Empty
    else Blocks(seq(|lectures.value|, i requires 0 <= i < |lectures.value| => BlockOf(lectures.value[i])))
  }

  /**
   * The empty message appears exactly for a missing or empty list; otherwise
   * there is one block per lecture, in order, showing "시간표 정보 없음" exactly
   * when the lecture has no schedules, and else one line per schedule with
   * its location text.
   */
  lemma RenderMeaning(lectures: Option<seq<Lecture>>)
    ensures Render(lectures) == Empty <==> lectures.None? || lectures.value == []
    ensures Render(lectures).Blocks? ==>
              var ls := lectures.value;
              var bs := Render(lectures).blocks;
              |bs| == |ls|
              && forall i :: 0 <= i < |ls| ==>
                   bs[i].title == ls[i].name
                   && (bs[i].schedules == Missing <==> !HasSchedules(ls[i]))
                   && (bs[i].schedules.Lines? ==>
                         |bs[i].schedules.lines| == |ls[i].schedules.value|
                         && forall k :: 0 <= k < |ls[i].schedules.value| ==>
                              bs[i].schedules.lines[k].location == LocationText(ls[i].schedules.value[k]))
  {
  }
}
