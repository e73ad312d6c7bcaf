/**
 * Maintenance of the lecture tables: storing parsed timetable entries,
 * reading course titles, inserting lectures, enrolling a user and finding
 * the lecture in session. A request's database session is the `Db` object;
 * rows added to it appear at the end of their table.
 */
module LectureService {
  import opened Common
  import opened TimeOfDay
  import opened Models
  import ScheduleParser
  import Serializer
  import ScheduleChecker

  /** `WEEKDAY_MAP`: the weekday labels to `datetime.weekday()` numbers. */
  const WeekdayMap: map<string, int> := map["월" := 0, "화" := 1, "수" := 2, "목" := 3, "금" := 4, "토" := 5, "일" := 6]

  /** The map and the serialiser's label list are inverse to each other. */
  lemma WeekdayMapLabels()
    ensures forall w :: 0 <= w < 7 ==> Serializer.Weekdays[w] in WeekdayMap && WeekdayMap[Serializer.Weekdays[w]] == w
    ensures forall s :: s in WeekdayMap ==> 0 <= WeekdayMap[s] < 7 && Serializer.Weekdays[WeekdayMap[s]] == s
  {
  }

  /** `query(Lecture).filter_by(code=..., section=...).first()`. */
  function FindLectureByKey(lectures: seq<Lecture>, code: string, section: string): (r: Option<Lecture>)
    ensures r.Some? ==> r.value in lectures && r.value.code == code && r.value.section == section
    ensures r.None? <==> forall l :: l in lectures ==> !(l.code == code && l.section == section)
  {
    if lectures == [] then None
    else if lectures[0].code == code && lectures[0].section == section then Some(lectures[0])
    else FindLectureByKey(lectures[1..], code, section)
  }

  // ---------------------------------------------------------------------
  // save_schedule_to_db

  /**
   * `time(*[int(p) for p in s.split(":")])` on the texts the schedule parser
   * produces: an hour, or an hour and a minute, each a non-empty run of
   * digits in range; `None` is the exception the conversion raises. Python
   * also accepts a third part (seconds), blanks around a part, a sign and
   * underscores between digits; the parser's `\d{2}:\d{2}` times and raw
   * `\d+(?:\.\d+/\d+)?` texts have none of these, and on them both agree.
   */
  function TimeOfText(s: string): Option<Minute>
  {
    var c := Span(s, 0, ch => ch != ':');
    var h := s[..c];
    if h == [] || !AllDigits(h) || DigitsValue(h) >= 24 then None
    else if c == |s| then Some(DigitsValue(h) * 60)
    else
      var m := s[c + 1..];
      if m == [] || !AllDigits(m) || DigitsValue(m) >= 60 then None
      else Some(DigitsValue(h) * 60 + DigitsValue(m))
  }

  /** Every "HH:MM" rendering converts back to its own time. */
  lemma TimeOfFormat(m: Minute)
    ensures TimeOfText(FormatHM(m)) == Some(m)
  {
    var s := FormatHM(m);
    assert s[0] != ':' && s[1] != ':';
    assert Span(s, 0, ch => ch != ':') == 2 by {
      assert Span(s, 2, ch => ch != ':') == 2;
      assert Span(s, 1, ch => ch != ':') == 2;
    }
  }

  /**
   * Whether an entry has start, end and duration all truthy: a missing or
   * empty time, a missing duration and a duration of zero all fail.
   */
  predicate Complete(e: ScheduleParser.Block)
  {
    Truthy(e.startTime) && Truthy(e.endTime) && e.duration.Some? && e.duration.value != 0
  }

  /** A stored slot that an entry repeats: same weekday, same "HH:MM" texts, same location text. */
  predicate Repeats(s: Schedule, e: ScheduleParser.Block)
    requires e.weekday in WeekdayMap
  {
    s.weekday == WeekdayMap[e.weekday] && Some(FormatHM(s.start)) == e.startTime
    && Some(FormatHM(s.end)) == e.endTime && s.location == Some(e.location)
  }

  /** `is_duplicate(entry)` against the schedules read before the loop. */
  predicate IsDuplicate(e: ScheduleParser.Block, existing: seq<Schedule>)
  {
    e.weekday !in WeekdayMap || exists k :: 0 <= k < |existing| && Repeats(existing[k], e)
  }

  /** The scan `is_duplicate` does over the snapshot, stopping at the first repeat. */
  method IsDuplicateScan(e: ScheduleParser.Block, existing: seq<Schedule>) returns (dup: bool)
    ensures dup == IsDuplicate(e, existing)
  {
    if e.weekday !in WeekdayMap {
      return true;
    }
    var k := 0;
    while k < |existing|
      invariant 0 <= k <= |existing|
      invariant forall j :: 0 <= j < k ==> !Repeats(existing[j], e)
    {
      if Repeats(existing[k], e) {
        return true;
      }
      k := k + 1;
    }
    return false;
  }

  /** The row one entry adds, if it passes the checks and its times convert. */
  function EntryRow(lectureId: int, e: ScheduleParser.Block, existing: seq<Schedule>): Option<Schedule>
  {
    if e.weekday !in WeekdayMap || !Complete(e) || IsDuplicate(e, existing) then None
    else
      match (TimeOfText(e.startTime.value), TimeOfText(e.endTime.value))
      case (Some(a), Some(b)) =>
        Some(Schedule(lectureId, WeekdayMap[e.weekday], a, b, e.duration.value, Some(e.location), None))
      case _ => None
  }

  /**
   * An entry adds a row exactly when its weekday is known, it is complete,
   * it repeats no snapshot row and both times convert; the row belongs to
   * the lecture and carries the entry's weekday number, times, duration and
   * location text, with no linked location.
   */
  lemma EntryRowMeaning(lectureId: int, e: ScheduleParser.Block, existing: seq<Schedule>)
    ensures EntryRow(lectureId, e, existing).Some? <==>
      e.weekday in WeekdayMap && Complete(e) && !IsDuplicate(e, existing)
      && TimeOfText(e.startTime.value).Some? && TimeOfText(e.endTime.value).Some?
    ensures EntryRow(lectureId, e, existing).Some? ==>
      var r := EntryRow(lectureId, e, existing).value;
      r.lectureId == lectureId && 0 <= r.weekday < 7 && Serializer.Weekdays[r.weekday] == e.weekday
      && Some(r.start) == TimeOfText(e.startTime.value) && Some(r.end) == TimeOfText(e.endTime.value)
      && r.duration == e.duration.value != 0 && r.location == Some(e.location) && r.locationId.None?
  {
    WeekdayMapLabels();
  }

  /** A new row whose entry wrote its times as "HH:MM" is a slot the snapshot does not already hold. */
  lemma EntryRowIsNew(lectureId: int, e: ScheduleParser.Block, existing: seq<Schedule>)
    requires EntryRow(lectureId, e, existing).Some?
    requires e.startTime == Some(FormatHM(EntryRow(lectureId, e, existing).value.start))
    requires e.endTime == Some(FormatHM(EntryRow(lectureId, e, existing).value.end))
    ensures var r := EntryRow(lectureId, e, existing).value;
      forall k :: 0 <= k < |existing| ==>
        !(existing[k].weekday == r.weekday && existing[k].start == r.start && existing[k].end == r.end
          && existing[k].location == r.location)
  {
    var r := EntryRow(lectureId, e, existing).value;
    forall k | 0 <= k < |existing|
      ensures !(existing[k].weekday == r.weekday && existing[k].start == r.start && existing[k].end == r.end
                && existing[k].location == r.location)
    {
      assert !Repeats(existing[k], e);
    }
  }

  /** The rows a batch of entries adds, in entry order, each checked against the same snapshot. */
  function NewRows(lectureId: int, entries: seq<ScheduleParser.Block>, existing: seq<Schedule>): seq<Schedule>
  {
    if entries == [] then []
    else
      var front := NewRows(lectureId, entries[..|entries| - 1], existing);
      match EntryRow(lectureId, entries[|entries| - 1], existing)
      case None => front
      case Some(r) => front + [r]
  }

  /** Every added row is the row of one of the entries. */
  lemma {:induction false} NewRowsFromEntries(lectureId: int, entries: seq<ScheduleParser.Block>, existing: seq<Schedule>)
    ensures |NewRows(lectureId, entries, existing)| <= |entries|
    ensures forall r :: r in NewRows(lectureId, entries, existing) ==>
      exists k :: 0 <= k < |entries| && EntryRow(lectureId, entries[k], existing) == Some(r)
  {
    if entries != [] {
      var init := entries[..|entries| - 1];
      NewRowsFromEntries(lectureId, init, existing);
      forall r | r in NewRows(lectureId, entries, existing)
        ensures exists k :: 0 <= k < |entries| && EntryRow(lectureId, entries[k], existing) == Some(r)
      {
        if r in NewRows(lectureId, init, existing) {
          var k :| 0 <= k < |init| && EntryRow(lectureId, init[k], existing) == Some(r);
          assert entries[k] == init[k];
        } else {
          assert EntryRow(lectureId, entries[|entries| - 1], existing) == Some(r);
        }
      }
    }
  }

  /**
   * Repeats inside one batch are not caught: the same new entry twice adds
   * the same row twice, because the check reads only the pre-loop snapshot.
   */
  lemma BatchRepeatKept(lectureId: int, e: ScheduleParser.Block, existing: seq<Schedule>)
    requires EntryRow(lectureId, e, existing).Some?
    ensures NewRows(lectureId, [e, e], existing) ==
      [EntryRow(lectureId, e, existing).value, EntryRow(lectureId, e, existing).value]
  {
    var r := EntryRow(lectureId, e, existing).value;
    assert [e, e][..1] == [e] && [e][..0] == [];
    assert NewRows(lectureId, [e], existing) == [r];
  }

  /** The rows `save_schedule_to_db` adds: none when no lecture has the code and section. */
  function SavedRows(lectures: seq<Lecture>, schedules: seq<Schedule>, code: string, section: string,
                     entries: seq<ScheduleParser.Block>): seq<Schedule>
  {
    match FindLectureByKey(lectures, code, section)
    case None => []
    case Some(l) => NewRows(l.id, entries, LectureSchedules(schedules, l.id))
  }

  /** `save_schedule_to_db(course_code, section_number, schedule_data, db)`. */
  method SaveSchedule(db: Db, courseCode: string, sectionNumber: string, entries: seq<ScheduleParser.Block>)
    modifies db`schedules
    ensures db.schedules == old(db.schedules) + SavedRows(db.lectures, old(db.schedules), courseCode, sectionNumber, entries)
  {
    var lecture := FindLectureByKey(db.lectures, courseCode, sectionNumber);
    if lecture.None? {
      assert SavedRows(db.lectures, db.schedules, courseCode, sectionNumber, entries) == [];
      return;
    }
    var id := lecture.value.id;
    var existing := LectureSchedules(db.schedules, id);
    ghost var before := db.schedules;
    var i := 0;
    while i < |entries|
      invariant 0 <= i <= |entries|
      invariant db.schedules == before + NewRows(id, entries[..i], existing)
    {
      assert entries[..i + 1][..i] == entries[..i];
      var e := entries[i];
      if e.weekday in WeekdayMap && Complete(e) {
        var dup := IsDuplicateScan(e, existing);
        if !dup {
          var start := TimeOfText(e.startTime.value);
          var end := TimeOfText(e.endTime.value);
          if start.Some? && end.Some? {
            db.schedules := db.schedules + [Schedule(id, WeekdayMap[e.weekday], start.value, end.value,
                                                      e.duration.value, Some(e.location), None)];
          }
        }
      }
      i := i + 1;
    }
    assert entries[..i] == entries;
  }

  // ---------------------------------------------------------------------
  // parse_lecture_list

  /** One course title read from the list page. */
  datatype LectureInfo = LectureInfo(name: string, code: string, section: string, fullName: string)

  /** The code and section groups of `\s+\(([\w\d]+)-(\d+)\)`. */
  datatype Tail = Tail(code: string, section: string)

  /** `f"{name} ({code}-{section})"`. */
  function FullName(name: string, code: string, section: string): string
  {
    name + " (" + code + "-" + section + ")"
  }

  /** A span that stops where the class stops is the span. */
  lemma SpanStops(s: string, i: nat, j: nat, p: char -> bool)
    requires i <= j <= |s|
    requires forall k :: i <= k < j ==> p(s[k])
    requires j < |s| ==> !p(s[j])
    ensures Span(s, i, p) == j
  {
  }

  /**
   * `\(([\w\d]+)-(\d+)\)` read from position `b`. Each greedy run is
   * followed by a character outside its class, so the only backtracking
   * alternative that can succeed is the longest run, and the groups are
   * read without search.
   */
  function Paren(raw: string, b: nat): Option<Tail>
    requires b <= |raw|
  {
    if b == |raw| || raw[b] != '(' then None
    else
      var c := Span(raw, b + 1, ScheduleParser.IsWordChar);
      if c == b + 1 || c == |raw| || raw[c] != '-' then None
      else
        var d := Span(raw, c + 1, IsDigit);
        if d == c + 1 || d == |raw| || raw[d] != ')' then None
        else Some(Tail(raw[b + 1..c], raw[c + 1..d]))
  }

  /** The text `(code-section)` stands at `b`, with the groups of the pattern's classes. */
  predicate ParenShape(raw: string, b: nat, code: string, section: string)
  {
    var c := b + 1 + |code|;
    var d := c + 1 + |section|;
    d < |raw| && raw[b] == '(' && raw[b + 1..c] == code && raw[c] == '-' && raw[c + 1..d] == section && raw[d] == ')'
    && ScheduleParser.RunOf(code, ScheduleParser.IsWordChar) && ScheduleParser.RunOf(section, IsDigit)
  }

  lemma ParenMeaning(raw: string, b: nat, code: string, section: string)
    requires b <= |raw|
    ensures Paren(raw, b) == Some(Tail(code, section)) <==> ParenShape(raw, b, code, section)
  {
    if Paren(raw, b) == Some(Tail(code, section)) {
      ParenSound(raw, b);
    }
    if ParenShape(raw, b, code, section) {
      ParenComplete(raw, b, code, section);
    }
  }

  lemma ParenSound(raw: string, b: nat)
    requires b <= |raw| && Paren(raw, b).Some?
    ensures ParenShape(raw, b, Paren(raw, b).value.code, Paren(raw, b).value.section)
  {
    var c := Span(raw, b + 1, ScheduleParser.IsWordChar);
    var d := Span(raw, c + 1, IsDigit);
    ParenUnfold(raw, b, c, d);
    ScheduleParser.SpanRun(raw, b + 1, ScheduleParser.IsWordChar);
    ScheduleParser.SpanRun(raw, c + 1, IsDigit);
    ParenShapeOf(raw, b, c, d);
  }

  /** Where a successful `Paren` found its runs. */
  lemma ParenUnfold(raw: string, b: nat, c: nat, d: nat)
    requires b <= |raw| && Paren(raw, b).Some?
    requires b < |raw| && c == Span(raw, b + 1, ScheduleParser.IsWordChar)
    requires c < |raw| && d == Span(raw, c + 1, IsDigit)
    ensures b + 1 < c < d < |raw| && raw[b] == '(' && raw[c] == '-' && raw[d] == ')'
    ensures Paren(raw, b).value == Tail(raw[b + 1..c], raw[c + 1..d])
  {
  }

  /** The two runs found between `b`, `c` and `d` give the shape. */
  lemma ParenShapeOf(raw: string, b: nat, c: nat, d: nat)
    requires b < c < d < |raw| && raw[b] == '(' && raw[c] == '-' && raw[d] == ')'
    requires ScheduleParser.RunOf(raw[b + 1..c], ScheduleParser.IsWordChar) && ScheduleParser.RunOf(raw[c + 1..d], IsDigit)
    ensures ParenShape(raw, b, raw[b + 1..c], raw[c + 1..d])
  {
  }

  lemma ParenComplete(raw: string, b: nat, code: string, section: string)
    requires b <= |raw| && ParenShape(raw, b, code, section)
    ensures Paren(raw, b) == Some(Tail(code, section))
  {
    var c := b + 1 + |code|;
    var d := c + 1 + |section|;
    forall k | b + 1 <= k < c ensures ScheduleParser.IsWordChar(raw[k]) {
      assert code[k - b - 1] == raw[k];
    }
    SpanStops(raw, b + 1, c, ScheduleParser.IsWordChar);
    forall k | c + 1 <= k < d ensures IsDigit(raw[k]) {
      assert section[k - c - 1] == raw[k];
    }
    SpanStops(raw, c + 1, d, IsDigit);
  }

  /** `\s+` followed by the parenthesised groups, read from `a`. */
  function TailAt(raw: string, a: nat): Option<Tail>
    requires a <= |raw|
  {
    var b := Span(raw, a, IsSpace);
    if b == a then None else Paren(raw, b)
  }

  /** The regular expression's own reading of the tail at `a`, with any end for the whitespace run. */
  ghost predicate TailShape(raw: string, a: nat, code: string, section: string)
  {
    exists b: nat :: a < b <= |raw| && AllSpace(raw[a..b]) && ParenShape(raw, b, code, section)
  }

  /** The tail matcher returns exactly the groups the pattern can match at `a`. */
  lemma TailAtMeaning(raw: string, a: nat, code: string, section: string)
    requires a <= |raw|
    ensures TailAt(raw, a) == Some(Tail(code, section)) <==> TailShape(raw, a, code, section)
  {
    var b := Span(raw, a, IsSpace);
    if TailAt(raw, a) == Some(Tail(code, section)) {
      ParenMeaning(raw, b, code, section);
      assert AllSpace(raw[a..b]) by {
        forall k | 0 <= k < b - a ensures IsSpace(raw[a..b][k]) {
          assert raw[a..b][k] == raw[a + k];
        }
      }
    }
    if TailShape(raw, a, code, section) {
      var e: nat :| a < e <= |raw| && AllSpace(raw[a..e]) && ParenShape(raw, e, code, section);
      forall k | a <= k < e ensures IsSpace(raw[k]) {
        assert raw[a..e][k - a] == raw[k];
      }
      assert !IsSpace(raw[e]);
      SpanStops(raw, a, e, IsSpace);
      ParenMeaning(raw, e, code, section);
    }
  }

  /** Whether the pattern's tail matches at `a`. */
  ghost predicate HasTail(raw: string, a: nat)
  {
    exists code, section :: TailShape(raw, a, code, section)
  }

  lemma HasTailMeaning(raw: string, a: nat)
    requires a <= |raw|
    ensures TailAt(raw, a).Some? <==> HasTail(raw, a)
  {
    if TailAt(raw, a).Some? {
      TailAtMeaning(raw, a, TailAt(raw, a).value.code, TailAt(raw, a).value.section);
    }
    if HasTail(raw, a) {
      var code, section :| TailShape(raw, a, code, section);
      TailAtMeaning(raw, a, code, section);
    }
  }

  /** How far `.+` can reach: `.` matches anything but a newline. */
  function NameLimit(raw: string): (n: nat)
    ensures n <= |raw| && forall k :: 0 <= k < n ==> raw[k] != '\n'
    ensures n < |raw| ==> raw[n] == '\n'
  {
    Span(raw, 0, ch => ch != '\n')
  }

  /** The positions in `raw` after which the tail matches. */
  function TailOk(raw: string): nat -> bool
  {
    (b: nat) => b <= |raw| && TailAt(raw, b).Some?
  }

  /** The largest `b` in `1..a` with `ok(b)`: how greedy `.+` gives back characters until the rest matches. */
  function LastOk(a: nat, ok: nat -> bool): (r: Option<nat>)
    ensures r.Some? ==> 0 < r.value <= a && ok(r.value) && forall b :: r.value < b <= a ==> !ok(b)
    ensures r.None? ==> forall b :: 0 < b <= a ==> !ok(b)
  {
    if a == 0 then None
    else if ok(a) then Some(a)
    else LastOk(a - 1, ok)
  }

  /** The last position that works is the one followed only by positions that do not. */
  lemma LastOkIs(a: nat, ok: nat -> bool, x: nat)
    requires 0 < x <= a && ok(x) && forall b :: x < b <= a ==> !ok(b)
    ensures LastOk(a, ok) == Some(x)
  {
  }

  /** `re.match(r"(.+)\s+\(([\w\d]+)-(\d+)\)", raw)` and the dictionary built from its groups. */
  function MatchTitle(raw: string): Option<LectureInfo>
  {
    match LastOk(NameLimit(raw), TailOk(raw))
    case None => None
    case Some(a) =>
      var t := TailAt(raw, a).value;
      Some(LectureInfo(raw[..a], t.code, t.section, FullName(raw[..a], t.code, t.section)))
  }

  /**
   * What a successful match means: the title starts with a non-empty name
   * without newlines, the pattern's tail follows it, no longer name would
   * do, and the full name is rebuilt from the three groups; anything after
   * the closing parenthesis is ignored.
   */
  ghost predicate TitleMatch(raw: string, info: LectureInfo)
  {
    var a := |info.name|;
    0 < a <= NameLimit(raw) && raw[..a] == info.name && TailShape(raw, a, info.code, info.section)
    && (forall b :: a < b <= NameLimit(raw) ==> !HasTail(raw, b))
    && info.fullName == FullName(info.name, info.code, info.section)
  }

  /** `TailOk` and `HasTail` agree on every position `.+` can reach. */
  lemma TailOkMeaning(raw: string)
    ensures forall b :: 0 < b <= NameLimit(raw) ==> (TailOk(raw)(b) <==> HasTail(raw, b))
  {
    forall b | 0 < b <= NameLimit(raw) ensures TailOk(raw)(b) <==> HasTail(raw, b) {
      HasTailMeaning(raw, b);
    }
  }

  lemma MatchTitleMeaning(raw: string, info: LectureInfo)
    ensures MatchTitle(raw) == Some(info) <==> TitleMatch(raw, info)
  {
    if MatchTitle(raw) == Some(info) {
      MatchTitleSound(raw);
    }
    if TitleMatch(raw, info) {
      MatchTitleComplete(raw, info);
    }
  }

  lemma MatchTitleSound(raw: string)
    requires MatchTitle(raw).Some?
    ensures TitleMatch(raw, MatchTitle(raw).value)
  {
    TailOkMeaning(raw);
    var a := LastOk(NameLimit(raw), TailOk(raw)).value;
    var t := TailAt(raw, a).value;
    TailAtMeaning(raw, a, t.code, t.section);
  }

  lemma MatchTitleComplete(raw: string, info: LectureInfo)
    requires TitleMatch(raw, info)
    ensures MatchTitle(raw) == Some(info)
  {
    var n := NameLimit(raw);
    var a := |info.name|;
    TailOkMeaning(raw);
    TailAtMeaning(raw, a, info.code, info.section);
    assert TailOk(raw)(a);
    assert forall b :: a < b <= n ==> !TailOk(raw)(b);
    LastOkIs(n, TailOk(raw), a);
  }

  /** A title with no possible split does not match and is skipped. */
  lemma MatchTitleNone(raw: string)
    ensures MatchTitle(raw).None? <==> forall b :: 0 < b <= NameLimit(raw) ==> !HasTail(raw, b)
  {
    TailOkMeaning(raw);
  }

  /** No tail starts at a position holding something other than whitespace. */
  lemma NoTailAt(raw: string, b: nat)
    requires b <= |raw| && (b == |raw| || !IsSpace(raw[b]))
    ensures TailAt(raw, b).None?
  {
    SpanStops(raw, b, b, IsSpace);
  }

  /** The parts of a rebuilt title stand where `FullName` puts them. */
  lemma FullNameLayout(name: string, code: string, section: string)
    ensures var raw := FullName(name, code, section);
      var a := |name|;
      var c := a + 2 + |code|;
      var d := c + 1 + |section|;
      |raw| == d + 1 && raw[..a] == name && raw[a] == ' ' && raw[a + 1] == '(' && raw[a + 2..c] == code
      && raw[c] == '-' && raw[c + 1..d] == section && raw[d] == ')'
  {
  }

  /** A rebuilt title has no newline, so `.+` can reach its end. */
  lemma FullNameLimit(name: string, code: string, section: string)
    requires forall k :: 0 <= k < |name| ==> name[k] != '\n'
    requires ScheduleParser.RunOf(code, ScheduleParser.IsWordChar) && ScheduleParser.RunOf(section, IsDigit)
    ensures NameLimit(FullName(name, code, section)) == |FullName(name, code, section)|
  {
    var raw := FullName(name, code, section);
    FullNameLayout(name, code, section);
    var a := |name|;
    var c := a + 2 + |code|;
    var d := c + 1 + |section|;
    forall k | 0 <= k < |raw| ensures raw[k] != '\n' {
      if k < a {
        assert raw[k] == raw[..a][k];
      } else if a + 2 <= k < c {
        assert raw[k] == raw[a + 2..c][k - a - 2];
      } else if c + 1 <= k < d {
        assert raw[k] == raw[c + 1..d][k - c - 1];
      }
    }
    SpanStops(raw, 0, |raw|, ch => ch != '\n');
  }

  /** No position after the name's end starts a tail: none of them holds whitespace. */
  lemma FullNameNoLaterTail(name: string, code: string, section: string)
    requires ScheduleParser.RunOf(code, ScheduleParser.IsWordChar) && ScheduleParser.RunOf(section, IsDigit)
    ensures var raw := FullName(name, code, section);
      forall b :: |name| < b <= |raw| ==> !TailOk(raw)(b)
  {
    var raw := FullName(name, code, section);
    FullNameLayout(name, code, section);
    var a := |name|;
    var c := a + 2 + |code|;
    var d := c + 1 + |section|;
    forall b | a < b <= |raw| ensures !TailOk(raw)(b) {
      if a + 2 <= b < c {
        assert raw[b] == raw[a + 2..c][b - a - 2];
      } else if c + 1 <= b < d {
        assert raw[b] == raw[c + 1..d][b - c - 1];
      }
      NoTailAt(raw, b);
    }
  }

  /** The tail matches right after the name of a rebuilt title. */
  lemma FullNameTail(name: string, code: string, section: string)
    requires ScheduleParser.RunOf(code, ScheduleParser.IsWordChar) && ScheduleParser.RunOf(section, IsDigit)
    ensures TailAt(FullName(name, code, section), |name|) == Some(Tail(code, section))
  {
    FullNameLayout(name, code, section);
    LayoutTail(FullName(name, code, section), |name|, code, section);
  }

  lemma LayoutTail(raw: string, a: nat, code: string, section: string)
    requires ScheduleParser.RunOf(code, ScheduleParser.IsWordChar) && ScheduleParser.RunOf(section, IsDigit)
    requires a + 2 <= |raw| && raw[a] == ' ' && ParenShape(raw, a + 1, code, section)
    ensures TailAt(raw, a) == Some(Tail(code, section))
  {
    ParenComplete(raw, a + 1, code, section);
    SpanStops(raw, a, a + 1, IsSpace);
  }

  /** Reading a title written as `f"{name} ({code}-{section})"` gives back its three parts. */
  lemma TitleRoundTrip(name: string, code: string, section: string)
    requires name != [] && forall k :: 0 <= k < |name| ==> name[k] != '\n'
    requires ScheduleParser.RunOf(code, ScheduleParser.IsWordChar) && ScheduleParser.RunOf(section, IsDigit)
    ensures MatchTitle(FullName(name, code, section)) == Some(LectureInfo(name, code, section, FullName(name, code, section)))
  {
    var raw := FullName(name, code, section);
    var a := |name|;
    FullNameLimit(name, code, section);
    FullNameNoLaterTail(name, code, section);
    FullNameTail(name, code, section);
    assert TailOk(raw)(a);
    LastOkIs(|raw|, TailOk(raw), a);
    assert raw[..a] == name;
  }

  /** The results of `read` on `titles` that are present, in order. */
  function Collect(titles: seq<string>, read: string -> Option<LectureInfo>): seq<LectureInfo>
  {
    if titles == [] then []
    else
      var front := Collect(titles[..|titles| - 1], read);
      match read(titles[|titles| - 1])
      case None => front
      case Some(info) => front + [info]
  }

  /** Every collected value comes from a title, and every title that gives one contributes it. */
  lemma {:induction false} CollectMeaning(titles: seq<string>, read: string -> Option<LectureInfo>)
    ensures forall info :: info in Collect(titles, read) <==> exists k :: 0 <= k < |titles| && read(titles[k]) == Some(info)
  {
    if titles != [] {
      var init := titles[..|titles| - 1];
      CollectMeaning(init, read);
      forall info
        ensures info in Collect(titles, read) <==> exists k :: 0 <= k < |titles| && read(titles[k]) == Some(info)
      {
        if info in Collect(titles, read) && info !in Collect(init, read) {
          assert read(titles[|titles| - 1]) == Some(info);
        }
        if exists k :: 0 <= k < |titles| && read(titles[k]) == Some(info) {
          var k :| 0 <= k < |titles| && read(titles[k]) == Some(info);
          if k < |init| {
            assert init[k] == titles[k];
          }
        }
      }
    }
  }

  /** The dictionaries of the titles that match, in page order. */
  function TitleInfos(titles: seq<string>): seq<LectureInfo>
  {
    Collect(titles, MatchTitle)
  }

  /** Every dictionary is the reading of one matching title, and every matching title gives one. */
  lemma TitleInfosMeaning(titles: seq<string>)
    ensures forall info :: info in TitleInfos(titles) <==>
      exists k :: 0 <= k < |titles| && TitleMatch(titles[k], info)
  {
    CollectMeaning(titles, MatchTitle);
    forall k, info | 0 <= k < |titles| ensures MatchTitle(titles[k]) == Some(info) <==> TitleMatch(titles[k], info) {
      MatchTitleMeaning(titles[k], info);
    }
  }

  /** `parse_lecture_list` over the stripped texts of the title elements. */
  method ParseLectureList(titles: seq<string>) returns (lectures: seq<LectureInfo>)
    ensures lectures == TitleInfos(titles)
  {
    lectures := [];
    var i := 0;
    while i < |titles|
      invariant 0 <= i <= |titles|
      invariant lectures == Collect(titles[..i], MatchTitle)
    {
      assert titles[..i + 1][..i] == titles[..i];
      var m := MatchTitle(titles[i]);
      if m.Some? {
        lectures := lectures + [m.value];
      }
      i := i + 1;
    }
    assert titles[..i] == titles;
  }

  // ---------------------------------------------------------------------
  // store_parsed_lectures

  /** The (code, section) keys of a set of lectures. */
  function LectureKeys(lectures: seq<Lecture>): (r: set<(string, string)>)
    ensures forall l :: l in lectures ==> (l.code, l.section) in r
    ensures forall k :: k in r ==> exists l :: l in lectures && (l.code, l.section) == k
  {
    set l | l in lectures :: (l.code, l.section)
  }

  function NewLecture(id: int, info: LectureInfo): Lecture
  {
    Lecture(id, info.name, info.code, info.section, info.fullName, None)
  }

  /**
   * The lecture table after `store_parsed_lectures`: each dictionary whose
   * key was not in the table before the call adds a row with the next free
   * id; repeats inside the batch are not checked against each other.
   */
  function AfterStore(lectures: seq<Lecture>, infos: seq<LectureInfo>, keys: set<(string, string)>): seq<Lecture>
  {
    if infos == [] then lectures
    else
      var prev := AfterStore(lectures, infos[..|infos| - 1], keys);
      var info := infos[|infos| - 1];
      if (info.code, info.section) in keys then prev
      else prev + [NewLecture(NextId(LectureIds(prev)), info)]
  }

  /** `store_parsed_lectures(lecture_dicts, db)`. */
  method StoreParsedLectures(db: Db, infos: seq<LectureInfo>)
    modifies db`lectures
    ensures db.lectures == AfterStore(old(db.lectures), infos, LectureKeys(old(db.lectures)))
  {
    var keys := LectureKeys(db.lectures);
    ghost var before := db.lectures;
    var i := 0;
    while i < |infos|
      invariant 0 <= i <= |infos|
      invariant db.lectures == AfterStore(before, infos[..i], keys)
    {
      assert infos[..i + 1][..i] == infos[..i];
      var info := infos[i];
      if (info.code, info.section) !in keys {
        db.lectures := db.lectures + [NewLecture(NextId(LectureIds(db.lectures)), info)];
      }
      i := i + 1;
    }
    assert infos[..i] == infos;
  }

  /** Distinct ids: the primary key of the lecture table. */
  predicate UniqueIds(lectures: seq<Lecture>)
  {
    forall i, j :: 0 <= i < j < |lectures| ==> lectures[i].id != lectures[j].id
  }

  /**
   * `r` keeps the old rows as a prefix and keeps ids distinct; every added
   * row is a dictionary of the batch whose key was new, and every dictionary
   * whose key was new is in `r`.
   */
  predicate Stored(lectures: seq<Lecture>, infos: seq<LectureInfo>, keys: set<(string, string)>, r: seq<Lecture>)
  {
    |lectures| <= |r| && r[..|lectures|] == lectures && UniqueIds(r)
    && (forall j :: |lectures| <= j < |r| ==>
          (r[j].code, r[j].section) !in keys && r[j].platoCourseId.None?
          && LectureInfo(r[j].name, r[j].code, r[j].section, r[j].fullName) in infos)
    && (forall info :: info in infos && (info.code, info.section) !in keys ==>
          exists j :: |lectures| <= j < |r| && LectureInfo(r[j].name, r[j].code, r[j].section, r[j].fullName) == info)
  }

  /** Storing, from a table with distinct ids, gives a `Stored` table. */
  lemma {:induction false} AfterStoreMeaning(lectures: seq<Lecture>, infos: seq<LectureInfo>, keys: set<(string, string)>)
    requires UniqueIds(lectures)
    ensures Stored(lectures, infos, keys, AfterStore(lectures, infos, keys))
  {
    if infos != [] {
      var init := infos[..|infos| - 1];
      var info := infos[|infos| - 1];
      assert infos == init + [info];
      AfterStoreMeaning(lectures, init, keys);
      var prev := AfterStore(lectures, init, keys);
      if (info.code, info.section) !in keys {
        StoreAdded(lectures, init, info, keys, prev);
      } else {
        StoreSkipped(lectures, init, info, keys, prev);
      }
    }
  }

  /** A dictionary with a new key adds a row with the next free id. */
  lemma StoreAdded(lectures: seq<Lecture>, init: seq<LectureInfo>, info: LectureInfo,
                   keys: set<(string, string)>, prev: seq<Lecture>)
    requires Stored(lectures, init, keys, prev)
    requires (info.code, info.section) !in keys
    ensures Stored(lectures, init + [info], keys, prev + [NewLecture(NextId(LectureIds(prev)), info)])
  {
    var infos := init + [info];
    var r := prev + [NewLecture(NextId(LectureIds(prev)), info)];
    assert r[..|lectures|] == prev[..|lectures|];
    forall i, j | 0 <= i < j < |r| ensures r[i].id != r[j].id {
      if j == |prev| {
        assert LectureIds(prev)[i] == prev[i].id;
      }
    }
    forall x | x in infos && (x.code, x.section) !in keys
      ensures exists j :: |lectures| <= j < |r| && LectureInfo(r[j].name, r[j].code, r[j].section, r[j].fullName) == x
    {
      if x == info {
        assert LectureInfo(r[|prev|].name, r[|prev|].code, r[|prev|].section, r[|prev|].fullName) == x;
      } else {
        assert x in init;
        var j :| |lectures| <= j < |prev| && LectureInfo(prev[j].name, prev[j].code, prev[j].section, prev[j].fullName) == x;
        assert r[j] == prev[j];
      }
    }
  }

  /** A dictionary with a known key adds nothing. */
  lemma StoreSkipped(lectures: seq<Lecture>, init: seq<LectureInfo>, info: LectureInfo,
                     keys: set<(string, string)>, prev: seq<Lecture>)
    requires Stored(lectures, init, keys, prev)
    requires (info.code, info.section) in keys
    ensures Stored(lectures, init + [info], keys, prev)
  {
    var infos := init + [info];
    forall x | x in infos && (x.code, x.section) !in keys ensures x in init {
      assert x != info;
    }
  }

  /** The same new key twice in one batch inserts two rows with that key. */
  lemma StoreBatchRepeat(lectures: seq<Lecture>, info: LectureInfo, keys: set<(string, string)>)
    requires (info.code, info.section) !in keys
    ensures var r := AfterStore(lectures, [info, info], keys);
      |r| == |lectures| + 2 && r[|lectures|].code == r[|lectures| + 1].code == info.code
      && r[|lectures|].section == r[|lectures| + 1].section == info.section
  {
    assert [info, info][..1] == [info] && [info][..0] == [];
    assert |AfterStore(lectures, [info], keys)| == |lectures| + 1;
  }

  // ---------------------------------------------------------------------
  // enroll_user_in_lectures

  /** `{(lec.code, lec.section): lec for lec in ...}.get(key)`: a later row overwrites an earlier one. */
  function KeyLookup(lectures: seq<Lecture>, code: string, section: string): (r: Option<Lecture>)
    ensures r.Some? ==> exists i :: (0 <= i < |lectures| && lectures[i] == r.value
                                    && r.value.code == code && r.value.section == section
                                    && forall j :: i < j < |lectures| ==> !(lectures[j].code == code && lectures[j].section == section))
    ensures r.None? <==> forall l :: l in lectures ==> !(l.code == code && l.section == section)
  {
    if lectures == [] then None
    else
      var last := lectures[|lectures| - 1];
      if last.code == code && last.section == section then Some(last)
      else
        var r := KeyLookup(lectures[..|lectures| - 1], code, section);
        assert forall l :: l in lectures ==> l in lectures[..|lectures| - 1] || l == last;
        r
  }

  /** The enrolment table after `enroll_user_in_lectures`, given the user's keys before the call. */
  function AfterEnrol(enrolments: seq<Enrolment>, lectures: seq<Lecture>, userId: int, infos: seq<LectureInfo>,
                      userKeys: set<(string, string)>): seq<Enrolment>
  {
    if infos == [] then enrolments
    else
      var prev := AfterEnrol(enrolments, lectures, userId, infos[..|infos| - 1], userKeys);
      var info := infos[|infos| - 1];
      if (info.code, info.section) in userKeys then prev
      else
        match KeyLookup(lectures, info.code, info.section)
        case None => prev
        case Some(l) => prev + [Enrolment(userId, l.id, false, false)]
  }

  /**
   * `enroll_user_in_lectures(user, lecture_dicts, db)`. The appends collect in
   * the session (`pending`); the commit stores them only when the table keeps
   * one row per (user, lecture) pair, and otherwise fails with a primary-key
   * violation and stores nothing.
   */
  method EnrollUser(db: Db, userId: int, infos: seq<LectureInfo>) returns (committed: bool)
    modifies db`enrolments
    ensures var pending := AfterEnrol(old(db.enrolments), db.lectures, userId, infos,
                                      LectureKeys(UserLectures(old(db.enrolments), db.lectures, userId)));
      committed == UniquePairs(pending) && db.enrolments == (if committed then pending else old(db.enrolments))
    ensures old(db.Valid()) ==> db.Valid()
  {
    var userKeys := LectureKeys(UserLectures(db.enrolments, db.lectures, userId));
    var pending := db.enrolments;
    var i := 0;
    while i < |infos|
      invariant 0 <= i <= |infos|
      invariant pending == AfterEnrol(db.enrolments, db.lectures, userId, infos[..i], userKeys)
    {
      assert infos[..i + 1][..i] == infos[..i];
      var info := infos[i];
      if (info.code, info.section) !in userKeys {
        var lecture := KeyLookup(db.lectures, info.code, info.section);
        if lecture.Some? {
          pending := pending + [Enrolment(userId, lecture.value.id, false, false)];
        }
      }
      i := i + 1;
    }
    assert infos[..i] == infos;
    committed := UniquePairs(pending);
    if committed {
      db.enrolments := pending;
    }
  }

  /**
   * `r` keeps the old rows as a prefix, and each added row links the user to
   * a stored lecture whose key came from `infos` and was not among
   * `userKeys`, with both runner flags off.
   */
  predicate EnrolSound(enrolments: seq<Enrolment>, lectures: seq<Lecture>, userId: int,
                       infos: seq<LectureInfo>, userKeys: set<(string, string)>, r: seq<Enrolment>)
  {
    |enrolments| <= |r| && r[..|enrolments|] == enrolments
    && forall j :: |enrolments| <= j < |r| ==>
         r[j].userId == userId && !r[j].autoEnabled && !r[j].inProgress
         && exists info :: (info in infos && (info.code, info.section) !in userKeys
                            && KeyLookup(lectures, info.code, info.section).Some?
                            && KeyLookup(lectures, info.code, info.section).value.id == r[j].lectureId)
  }

  /** Every key of `infos` outside `userKeys` that the table holds is linked in the rows added to `enrolments`. */
  predicate EnrolCovers(enrolments: seq<Enrolment>, lectures: seq<Lecture>, userId: int,
                        infos: seq<LectureInfo>, userKeys: set<(string, string)>, r: seq<Enrolment>)
    requires |enrolments| <= |r|
  {
    forall info :: info in infos && (info.code, info.section) !in userKeys
                   && KeyLookup(lectures, info.code, info.section).Some? ==>
      Enrolment(userId, KeyLookup(lectures, info.code, info.section).value.id, false, false) in r[|enrolments|..]
  }

  /**
   * Enrolling keeps the old rows as a prefix; each added row links the user
   * to a stored lecture whose key came from the batch, was not yet among the
   * user's lectures, and both runner flags start off; every batch key the
   * user lacked and the table holds is linked afterwards.
   */
  lemma {:induction false} AfterEnrolMeaning(enrolments: seq<Enrolment>, lectures: seq<Lecture>, userId: int,
                                             infos: seq<LectureInfo>, userKeys: set<(string, string)>)
    ensures var r := AfterEnrol(enrolments, lectures, userId, infos, userKeys);
      EnrolSound(enrolments, lectures, userId, infos, userKeys, r)
      && EnrolCovers(enrolments, lectures, userId, infos, userKeys, r)
  {
    if infos != [] {
      var init := infos[..|infos| - 1];
      var info := infos[|infos| - 1];
      assert infos == init + [info];
      AfterEnrolMeaning(enrolments, lectures, userId, init, userKeys);
      var prev := AfterEnrol(enrolments, lectures, userId, init, userKeys);
      var r := AfterEnrol(enrolments, lectures, userId, infos, userKeys);
      EnrolSoundStep(enrolments, lectures, userId, init, info, userKeys, prev, r);
      EnrolCoversStep(enrolments, lectures, userId, init, info, userKeys, prev, r);
    }
  }

  /** Two dictionaries of the batch carry one key that the user lacked and the table holds. */
  predicate RepeatsNewKey(lectures: seq<Lecture>, infos: seq<LectureInfo>, userKeys: set<(string, string)>)
  {
    exists i, j :: 0 <= i < j < |infos| && infos[i].code == infos[j].code && infos[i].section == infos[j].section
                   && (infos[j].code, infos[j].section) !in userKeys
                   && KeyLookup(lectures, infos[j].code, infos[j].section).Some?
  }

  /** Some row of `s` links the user to the lecture. */
  predicate Linked(s: seq<Enrolment>, userId: int, lectureId: int)
  {
    exists m :: 0 <= m < |s| && s[m].userId == userId && s[m].lectureId == lectureId
  }

  /**
   * From a table with one row per pair and lectures with distinct ids, the
   * enrolled table keeps one row per pair exactly when no key the user
   * lacked, and the lecture table holds, comes twice in the batch: that is
   * when the commit succeeds.
   */
  lemma {:induction false} AfterEnrolUnique(enrolments: seq<Enrolment>, lectures: seq<Lecture>, userId: int,
                                            infos: seq<LectureInfo>)
    requires UniquePairs(enrolments) && UniqueIds(lectures)
    ensures var userKeys := LectureKeys(UserLectures(enrolments, lectures, userId));
      UniquePairs(AfterEnrol(enrolments, lectures, userId, infos, userKeys))
      <==> !RepeatsNewKey(lectures, infos, userKeys)
  {
    var userKeys := LectureKeys(UserLectures(enrolments, lectures, userId));
    if infos == [] {
      assert !RepeatsNewKey(lectures, infos, userKeys);
    } else {
      var init := infos[..|infos| - 1];
      var info := infos[|infos| - 1];
      assert infos == init + [info];
      AfterEnrolUnique(enrolments, lectures, userId, init);
      AfterEnrolMeaning(enrolments, lectures, userId, init, userKeys);
      var prev := AfterEnrol(enrolments, lectures, userId, init, userKeys);
      var r := AfterEnrol(enrolments, lectures, userId, infos, userKeys);
      assert r == EnrolNext(prev, lectures, userId, info, userKeys);
      EnrolUniqueStep(enrolments, lectures, userId, init, info, userKeys, prev, r);
    }
  }

  /** One more dictionary keeps the correspondence between unique pairs and unrepeated keys. */
  lemma EnrolUniqueStep(enrolments: seq<Enrolment>, lectures: seq<Lecture>, userId: int, init: seq<LectureInfo>,
                        info: LectureInfo, userKeys: set<(string, string)>, prev: seq<Enrolment>, r: seq<Enrolment>)
    requires UniqueIds(lectures)
    requires userKeys == LectureKeys(UserLectures(enrolments, lectures, userId))
    requires EnrolSound(enrolments, lectures, userId, init, userKeys, prev)
    requires EnrolCovers(enrolments, lectures, userId, init, userKeys, prev)
    requires UniquePairs(prev) <==> !RepeatsNewKey(lectures, init, userKeys)
    requires r == EnrolNext(prev, lectures, userId, info, userKeys)
    ensures UniquePairs(r) <==> !RepeatsNewKey(lectures, init + [info], userKeys)
  {
    RepeatsStep(lectures, init, info, userKeys);
    if (info.code, info.section) !in userKeys && KeyLookup(lectures, info.code, info.section).Some? {
      var l := KeyLookup(lectures, info.code, info.section).value;
      AppendUnique(prev, Enrolment(userId, l.id, false, false));
      LinkedIffSeen(enrolments, lectures, userId, init, userKeys, prev, info.code, info.section);
    }
  }

  /** A dictionary adds a repeat exactly when its key is new, held, and came earlier in the batch. */
  lemma RepeatsStep(lectures: seq<Lecture>, init: seq<LectureInfo>, info: LectureInfo, userKeys: set<(string, string)>)
    ensures RepeatsNewKey(lectures, init + [info], userKeys) <==>
      RepeatsNewKey(lectures, init, userKeys)
      || ((info.code, info.section) !in userKeys && KeyLookup(lectures, info.code, info.section).Some?
          && exists i :: 0 <= i < |init| && init[i].code == info.code && init[i].section == info.section)
  {
    var infos := init + [info];
    if RepeatsNewKey(lectures, infos, userKeys) {
      var i, j :| 0 <= i < j < |infos| && infos[i].code == infos[j].code && infos[i].section == infos[j].section
                  && (infos[j].code, infos[j].section) !in userKeys
                  && KeyLookup(lectures, infos[j].code, infos[j].section).Some?;
      if j < |init| {
        assert infos[i] == init[i] && infos[j] == init[j];
      } else {
        assert infos[i] == init[i] && infos[j] == info;
      }
    }
    if RepeatsNewKey(lectures, init, userKeys) {
      var i, j :| 0 <= i < j < |init| && init[i].code == init[j].code && init[i].section == init[j].section
                  && (init[j].code, init[j].section) !in userKeys
                  && KeyLookup(lectures, init[j].code, init[j].section).Some?;
      assert infos[i] == init[i] && infos[j] == init[j];
    }
    if (info.code, info.section) !in userKeys && KeyLookup(lectures, info.code, info.section).Some?
       && exists i :: 0 <= i < |init| && init[i].code == info.code && init[i].section == info.section {
      var i :| 0 <= i < |init| && init[i].code == info.code && init[i].section == info.section;
      assert infos[i] == init[i] && infos[|init|] == info;
    }
  }

  /** One more row keeps one row per pair exactly when its pair is not yet linked. */
  lemma AppendUnique(s: seq<Enrolment>, e: Enrolment)
    ensures UniquePairs(s + [e]) <==> UniquePairs(s) && !Linked(s, e.userId, e.lectureId)
  {
    var r := s + [e];
    if UniquePairs(r) {
      forall i, j | 0 <= i < j < |s|
        ensures !(s[i].userId == s[j].userId && s[i].lectureId == s[j].lectureId)
      {
        assert r[i] == s[i] && r[j] == s[j];
      }
      forall m | 0 <= m < |s| ensures !(s[m].userId == e.userId && s[m].lectureId == e.lectureId) {
        assert r[m] == s[m] && r[|s|] == e;
      }
    }
  }

  /**
   * Before a dictionary whose key `(code, section)` the user lacked and the
   * table holds, its lecture is already linked exactly when the key came
   * earlier in the batch.
   */
  lemma LinkedIffSeen(enrolments: seq<Enrolment>, lectures: seq<Lecture>, userId: int, init: seq<LectureInfo>,
                      userKeys: set<(string, string)>, prev: seq<Enrolment>, code: string, section: string)
    requires UniqueIds(lectures)
    requires userKeys == LectureKeys(UserLectures(enrolments, lectures, userId))
    requires EnrolSound(enrolments, lectures, userId, init, userKeys, prev)
    requires EnrolCovers(enrolments, lectures, userId, init, userKeys, prev)
    requires (code, section) !in userKeys && KeyLookup(lectures, code, section).Some?
    ensures Linked(prev, userId, KeyLookup(lectures, code, section).value.id) <==>
      exists i :: 0 <= i < |init| && init[i].code == code && init[i].section == section
  {
    if exists i :: 0 <= i < |init| && init[i].code == code && init[i].section == section {
      LinkedIfSeen(enrolments, lectures, userId, init, userKeys, prev, code, section);
    }
    if Linked(prev, userId, KeyLookup(lectures, code, section).value.id) {
      SeenIfLinked(enrolments, lectures, userId, init, userKeys, prev, code, section);
    }
  }

  /** A key that came earlier in the batch has its lecture linked already. */
  lemma LinkedIfSeen(enrolments: seq<Enrolment>, lectures: seq<Lecture>, userId: int, init: seq<LectureInfo>,
                     userKeys: set<(string, string)>, prev: seq<Enrolment>, code: string, section: string)
    requires |enrolments| <= |prev|
    requires EnrolCovers(enrolments, lectures, userId, init, userKeys, prev)
    requires (code, section) !in userKeys && KeyLookup(lectures, code, section).Some?
    requires exists i :: 0 <= i < |init| && init[i].code == code && init[i].section == section
    ensures Linked(prev, userId, KeyLookup(lectures, code, section).value.id)
  {
    var l := KeyLookup(lectures, code, section).value;
    var i :| 0 <= i < |init| && init[i].code == code && init[i].section == section;
    var info := init[i];
    assert Enrolment(userId, l.id, false, false) in prev[|enrolments|..];
    var m :| 0 <= m < |prev[|enrolments|..]| && prev[|enrolments|..][m] == Enrolment(userId, l.id, false, false);
    assert prev[|enrolments| + m] == Enrolment(userId, l.id, false, false);
  }

  /** A lecture linked already, for a key the user lacked, was linked by the same key earlier in the batch. */
  lemma SeenIfLinked(enrolments: seq<Enrolment>, lectures: seq<Lecture>, userId: int, init: seq<LectureInfo>,
                     userKeys: set<(string, string)>, prev: seq<Enrolment>, code: string, section: string)
    requires UniqueIds(lectures)
    requires userKeys == LectureKeys(UserLectures(enrolments, lectures, userId))
    requires EnrolSound(enrolments, lectures, userId, init, userKeys, prev)
    requires (code, section) !in userKeys && KeyLookup(lectures, code, section).Some?
    requires Linked(prev, userId, KeyLookup(lectures, code, section).value.id)
    ensures exists i :: 0 <= i < |init| && init[i].code == code && init[i].section == section
  {
    var l := KeyLookup(lectures, code, section).value;
    var m :| 0 <= m < |prev| && prev[m].userId == userId && prev[m].lectureId == l.id;
    if m < |enrolments| {
      assert enrolments[m] == prev[m];
      EnrolledKeyKnown(enrolments, lectures, userId, m, l);
      assert false;
    } else {
      var info :| info in init && (info.code, info.section) !in userKeys
                  && KeyLookup(lectures, info.code, info.section).Some?
                  && KeyLookup(lectures, info.code, info.section).value.id == prev[m].lectureId;
      SameIdSameLecture(lectures, l, KeyLookup(lectures, info.code, info.section).value);
      var i :| 0 <= i < |init| && init[i] == info;
    }
  }

  /** Lectures of a table with distinct ids are equal when their ids are. */
  lemma SameIdSameLecture(lectures: seq<Lecture>, a: Lecture, b: Lecture)
    requires UniqueIds(lectures) && a in lectures && b in lectures && a.id == b.id
    ensures a == b
  {
    var i :| 0 <= i < |lectures| && lectures[i] == a;
    var j :| 0 <= j < |lectures| && lectures[j] == b;
  }

  /** A row linking the user to a stored lecture puts that lecture's key among the user's keys. */
  lemma EnrolledKeyKnown(enrolments: seq<Enrolment>, lectures: seq<Lecture>, userId: int, m: nat, l: Lecture)
    requires m < |enrolments| && enrolments[m].userId == userId && enrolments[m].lectureId == l.id
    requires l in lectures && UniqueIds(lectures)
    ensures (l.code, l.section) in LectureKeys(UserLectures(enrolments, lectures, userId))
  {
    var f := FindLecture(lectures, l.id);
    assert f.Some?;
    SameIdSameLecture(lectures, l, f.value);
    UserLecturesHas(enrolments, lectures, userId, m);
  }

  /** Each row of the user whose lecture is stored contributes that lecture to `user.lectures`. */
  lemma {:induction false} UserLecturesHas(enrolments: seq<Enrolment>, lectures: seq<Lecture>, userId: int, m: nat)
    requires m < |enrolments| && enrolments[m].userId == userId
    requires FindLecture(lectures, enrolments[m].lectureId).Some?
    ensures FindLecture(lectures, enrolments[m].lectureId).value in UserLectures(enrolments, lectures, userId)
  {
    if m > 0 {
      assert enrolments[1..][m - 1] == enrolments[m];
      UserLecturesHas(enrolments[1..], lectures, userId, m - 1);
    }
  }

  /** The same new key twice in one batch gives two rows for one pair, which the commit refuses. */
  lemma EnrolBatchRepeat(enrolments: seq<Enrolment>, lectures: seq<Lecture>, userId: int, info: LectureInfo,
                         userKeys: set<(string, string)>)
    requires (info.code, info.section) !in userKeys && KeyLookup(lectures, info.code, info.section).Some?
    ensures var r := AfterEnrol(enrolments, lectures, userId, [info, info], userKeys);
      |r| == |enrolments| + 2 && r[|enrolments|] == r[|enrolments| + 1] && !UniquePairs(r)
  {
    var row := Enrolment(userId, KeyLookup(lectures, info.code, info.section).value.id, false, false);
    assert [info, info][..1] == [info] && [info][..0] == [];
    assert AfterEnrol(enrolments, lectures, userId, [info], userKeys) == enrolments + [row];
    var r := AfterEnrol(enrolments, lectures, userId, [info, info], userKeys);
    assert r == enrolments + [row] + [row];
    assert r[|enrolments|] == r[|enrolments| + 1] == row;
  }

  /** The row a dictionary adds: one for its lecture when the user lacked the key and the table holds it. */
  function EnrolNext(prev: seq<Enrolment>, lectures: seq<Lecture>, userId: int, info: LectureInfo,
                     userKeys: set<(string, string)>): seq<Enrolment>
  {
    if (info.code, info.section) in userKeys || KeyLookup(lectures, info.code, info.section).None? then prev
    else prev + [Enrolment(userId, KeyLookup(lectures, info.code, info.section).value.id, false, false)]
  }

  lemma EnrolSoundStep(enrolments: seq<Enrolment>, lectures: seq<Lecture>, userId: int, init: seq<LectureInfo>,
                       info: LectureInfo, userKeys: set<(string, string)>, prev: seq<Enrolment>, r: seq<Enrolment>)
    requires EnrolSound(enrolments, lectures, userId, init, userKeys, prev)
    requires r == EnrolNext(prev, lectures, userId, info, userKeys)
    ensures EnrolSound(enrolments, lectures, userId, init + [info], userKeys, r)
  {
    var infos := init + [info];
    assert forall x :: x in init ==> x in infos;
    assert prev <= r;
  }

  lemma EnrolCoversStep(enrolments: seq<Enrolment>, lectures: seq<Lecture>, userId: int, init: seq<LectureInfo>,
                        info: LectureInfo, userKeys: set<(string, string)>, prev: seq<Enrolment>, r: seq<Enrolment>)
    requires |enrolments| <= |prev| && EnrolCovers(enrolments, lectures, userId, init, userKeys, prev)
    requires r == EnrolNext(prev, lectures, userId, info, userKeys)
    ensures |enrolments| <= |r| && EnrolCovers(enrolments, lectures, userId, init + [info], userKeys, r)
  {
    var infos := init + [info];
    assert prev[|enrolments|..] <= r[|enrolments|..];
    forall x | x in infos && (x.code, x.section) !in userKeys && KeyLookup(lectures, x.code, x.section).Some?
      ensures Enrolment(userId, KeyLookup(lectures, x.code, x.section).value.id, false, false) in r[|enrolments|..]
    {
      if x != info {
        assert x in init;
      } else {
        assert r[|r| - 1] == r[|enrolments|..][|r| - 1 - |enrolments|];
      }
    }
  }

  // ---------------------------------------------------------------------
  // find_current_lecture

  /** Whether one of the lecture's schedules is in session at `now`. */
  predicate InSession(l: Lecture, schedules: seq<Schedule>, now: LocalNow)
  {
    exists k :: 0 <= k < |LectureSchedules(schedules, l.id)| && ScheduleChecker.InLecture(LectureSchedules(schedules, l.id)[k], now)
  }

  /** The first of `lectures`, in their order, that has a schedule in session. */
  function CurrentLecture(lectures: seq<Lecture>, schedules: seq<Schedule>, now: LocalNow): Option<Lecture>
  {
    if lectures == [] then None
    else if InSession(lectures[0], schedules, now) then Some(lectures[0])
    else CurrentLecture(lectures[1..], schedules, now)
  }

  /**
   * The current lecture is one of the lectures in session with none in
   * session before it, and there is none exactly when no lecture is in session.
   */
  lemma {:induction false} CurrentLectureMeaning(lectures: seq<Lecture>, schedules: seq<Schedule>, now: LocalNow)
    ensures var r := CurrentLecture(lectures, schedules, now);
      r.Some? ==> exists i :: (0 <= i < |lectures| && lectures[i] == r.value && InSession(lectures[i], schedules, now)
                               && forall j :: 0 <= j < i ==> !InSession(lectures[j], schedules, now))
    ensures CurrentLecture(lectures, schedules, now).None? <==> forall j :: 0 <= j < |lectures| ==> !InSession(lectures[j], schedules, now)
  {
    if lectures != [] && !InSession(lectures[0], schedules, now) {
      var rest := lectures[1..];
      CurrentLectureMeaning(rest, schedules, now);
      if CurrentLecture(rest, schedules, now).Some? {
        var i :| 0 <= i < |rest| && rest[i] == CurrentLecture(rest, schedules, now).value && InSession(rest[i], schedules, now)
          && forall j :: 0 <= j < i ==> !InSession(rest[j], schedules, now);
        assert lectures[i + 1] == rest[i];
        assert forall j :: 1 <= j < i + 1 ==> lectures[j] == rest[j - 1];
      }
      assert forall j :: 1 <= j < |lectures| ==> lectures[j] == rest[j - 1];
    }
  }

  /** `find_current_lecture(user)`: the scan of the user's lectures and their schedules. */
  method FindCurrentLecture(lectures: seq<Lecture>, schedules: seq<Schedule>, now: LocalNow) returns (r: Option<Lecture>)
    ensures r == CurrentLecture(lectures, schedules, now)
  {
    var i := 0;
    while i < |lectures|
      invariant 0 <= i <= |lectures|
      invariant CurrentLecture(lectures, schedules, now) == CurrentLecture(lectures[i..], schedules, now)
    {
      assert lectures[i..][1..] == lectures[i + 1..];
      var own := LectureSchedules(schedules, lectures[i].id);
      var k := 0;
      while k < |own|
        invariant 0 <= k <= |own|
        invariant forall q :: 0 <= q < k ==> !ScheduleChecker.InLecture(own[q], now)
      {
        if ScheduleChecker.InLecture(own[k], now) {
          assert InSession(lectures[i], schedules, now);
          return Some(lectures[i]);
        }
        k := k + 1;
      }
      i := i + 1;
    }
    return None;
  }
}
