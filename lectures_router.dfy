/**
 * Two endpoints of the lecture router: `/next`, which picks the lecture in
 * session now or else the next one today, and `/update_location`, which
 * links each offline schedule of the user's lectures to the room it names,
 * creating a room only when no row has its building code and room number.
 * The server's wall clock and the location parser are parameters.
 */
module LecturesRouter {
  import opened Common
  import opened TimeOfDay
  import opened Models
  import LocationParser

  // ---------------------------------------------------------------------
  // GET /next
  // ---------------------------------------------------------------------

  /** One schedule of one lecture, in the order the two nested loops visit them. */
  datatype Entry = Entry(lecture: Lecture, schedule: Schedule)

  /** The entries of one lecture's schedules. */
  function OwnEntries(l: Lecture, own: seq<Schedule>): (r: seq<Entry>)
    ensures |r| == |own| && forall k :: 0 <= k < |own| ==> r[k] == Entry(l, own[k])
  {
    seq(|own|, k requires 0 <= k < |own| => Entry(l, own[k]))
  }

  /** `for lecture in lectures: for sched in lecture.schedules`, flattened. */
  function Entries(lectures: seq<Lecture>, schedules: seq<Schedule>): seq<Entry>
    decreases |lectures|
  {
    if lectures == [] then []
    else
      var l := lectures[|lectures| - 1];
      Entries(lectures[..|lectures| - 1], schedules) + OwnEntries(l, LectureSchedules(schedules, l.id))
  }

  predicate IsToday(e: Entry, now: LocalNow)
  {
    e.schedule.weekday == now.weekday
  }

  /** `start_dt <= now <= end_dt` on today's date. */
  predicate IsOngoing(e: Entry, now: LocalNow)
  {
    IsToday(e, now) && e.schedule.start * MicrosPerMinute <= now.micros <= e.schedule.end * MicrosPerMinute
  }

  /** `now < start_dt` on today's date. */
  predicate IsLater(e: Entry, now: LocalNow)
  {
    IsToday(e, now) && now.micros < e.schedule.start * MicrosPerMinute
  }

  /** The loop's state: the entry returned at once, or the best upcoming entry so far. */
  datatype Scan = Found(entry: Entry) | Best(upcoming: Option<Entry>)

  /** One iteration of the inner loop. */
  function Step(st: Scan, e: Entry, now: LocalNow): Scan
  {
    match st
    case Found(_) => st
    case Best(b) =>
      if !IsToday(e, now) then st
      else if IsOngoing(e, now) then Found(e)
      else if IsLater(e, now) && (b.None? || e.schedule.start < b.value.schedule.start) then Best(Some(e))
      else st
  }

  /** The state after visiting `es` in order. */
  function ScanOf(es: seq<Entry>, now: LocalNow): Scan
    decreases |es|
  {
    if es == [] then Best(None) else Step(ScanOf(es[..|es| - 1], now), es[|es| - 1], now)
  }

  datatype NextLecture = Ongoing(name: string, start: Minute, end: Minute)
                       | Upcoming(name: string, start: Minute, end: Minute)
                       | NoLecture

  function Reported(st: Scan): NextLecture
  {
    match st
    case Found(e) => Ongoing(e.lecture.name, e.schedule.start, e.schedule.end)
    case Best(Some(e)) => Upcoming(e.lecture.name, e.schedule.start, e.schedule.end)
    case Best(None) => NoLecture
  }

  /** `get_next_lecture` on the user's lectures at wall-clock reading `now`. */
  function Next(lectures: seq<Lecture>, schedules: seq<Schedule>, now: LocalNow): NextLecture
  {
    Reported(ScanOf(Entries(lectures, schedules), now))
  }

  lemma ScanSnoc(es: seq<Entry>, e: Entry, now: LocalNow)
    ensures ScanOf(es + [e], now) == Step(ScanOf(es, now), e, now)
  {
    assert (es + [e])[..|es|] == es;
  }

  /** Once an entry is found, later entries do not change the answer. */
  lemma {:induction false} FoundStays(es: seq<Entry>, more: seq<Entry>, now: LocalNow)
    requires ScanOf(es, now).Found?
    ensures ScanOf(es + more, now) == ScanOf(es, now)
    decreases |more|
  {
    if more != [] {
      var init := more[..|more| - 1];
      assert es + more == (es + init) + [more[|more| - 1]];
      FoundStays(es, init, now);
      ScanSnoc(es + init, more[|more| - 1], now);
    } else {
      assert es + more == es;
    }
  }

  /**
   * The loop finds the first entry in session; with none in session, the
   * best upcoming entry is one starting later today with the earliest start,
   * and no earlier entry that starts later today starts as early; there is
   * none exactly when no entry starts later today.
   */
  lemma {:induction false} ScanMeaning(es: seq<Entry>, now: LocalNow)
    ensures ScanOf(es, now).Found? ==> exists i :: (0 <= i < |es| && es[i] == ScanOf(es, now).entry
      && IsOngoing(es[i], now) && forall j :: 0 <= j < i ==> !IsOngoing(es[j], now))
    ensures ScanOf(es, now).Best? ==> forall j :: 0 <= j < |es| ==> !IsOngoing(es[j], now)
    ensures ScanOf(es, now) == Best(None) ==> forall j :: 0 <= j < |es| ==> !IsLater(es[j], now)
    ensures ScanOf(es, now).Best? && ScanOf(es, now).upcoming.Some? ==>
      var b := ScanOf(es, now).upcoming.value;
      exists i :: (0 <= i < |es| && es[i] == b && IsLater(b, now)
        && (forall j :: 0 <= j < |es| && IsLater(es[j], now) ==> b.schedule.start <= es[j].schedule.start)
        && (forall j :: 0 <= j < i && IsLater(es[j], now) ==> b.schedule.start < es[j].schedule.start))
    decreases |es|
  {
    if es != [] {
      var init := es[..|es| - 1];
      var e := es[|es| - 1];
      ScanMeaning(init, now);
      assert forall j :: 0 <= j < |init| ==> es[j] == init[j];
      var st := ScanOf(init, now);
      if st.Found? {
        var i :| 0 <= i < |init| && init[i] == st.entry && IsOngoing(init[i], now)
          && forall j :: 0 <= j < i ==> !IsOngoing(init[j], now);
        assert es[i] == init[i];
      } else if ScanOf(es, now).Found? {
        assert es[|es| - 1] == ScanOf(es, now).entry;
      } else if ScanOf(es, now).upcoming.Some? {
        var b := ScanOf(es, now).upcoming.value;
        if st.upcoming.Some? && b == st.upcoming.value && !(IsLater(e, now) && e.schedule.start < b.schedule.start) {
          var i :| 0 <= i < |init| && init[i] == b && IsLater(b, now)
            && (forall j :: 0 <= j < |init| && IsLater(init[j], now) ==> b.schedule.start <= init[j].schedule.start)
            && (forall j :: 0 <= j < i && IsLater(init[j], now) ==> b.schedule.start < init[j].schedule.start);
          assert es[i] == b;
        } else {
          assert b == e;
          assert es[|es| - 1] == b;
        }
      }
    }
  }

  /** The scan of one lecture's schedules, from the state the earlier lectures left. */
  method ScanLecture(l: Lecture, own: seq<Schedule>, now: LocalNow, upcoming: Option<Entry>, ghost seen: seq<Entry>)
    returns (found: Option<Entry>, best: Option<Entry>)
    requires ScanOf(seen, now) == Best(upcoming)
    ensures found.Some? ==> ScanOf(seen + OwnEntries(l, own), now) == Found(found.value)
    ensures found.None? ==> ScanOf(seen + OwnEntries(l, own), now) == Best(best)
  {
    best := upcoming;
    var k := 0;
    assert seen + OwnEntries(l, own[..0]) == seen;
    while k < |own|
      invariant 0 <= k <= |own|
      invariant ScanOf(seen + OwnEntries(l, own[..k]), now) == Best(best)
    {
      var e := Entry(l, own[k]);
      LectureStep(seen, l, own, k, now);
      if own[k].weekday == now.weekday {
        if own[k].start * MicrosPerMinute <= now.micros <= own[k].end * MicrosPerMinute {
          FoundInLecture(seen, l, own, k, now);
          return Some(e), best;
        } else if now.micros < own[k].start * MicrosPerMinute {
          if best.None? || own[k].start < best.value.schedule.start {
            best := Some(e);
          }
        }
      }
      k := k + 1;
    }
    assert own[..k] == own;
    found := None;
  }

  lemma OwnEntriesAppend(l: Lecture, a: seq<Schedule>, b: seq<Schedule>)
    ensures OwnEntries(l, a + b) == OwnEntries(l, a) + OwnEntries(l, b)
  {
  }

  /** The inner loop's step `k` is one more step of the scan. */
  lemma LectureStep(seen: seq<Entry>, l: Lecture, own: seq<Schedule>, k: nat, now: LocalNow)
    requires k < |own|
    ensures ScanOf(seen + OwnEntries(l, own[..k + 1]), now) == Step(ScanOf(seen + OwnEntries(l, own[..k]), now), Entry(l, own[k]), now)
  {
    assert OwnEntries(l, own[..k + 1]) == OwnEntries(l, own[..k]) + [Entry(l, own[k])];
    assert seen + OwnEntries(l, own[..k + 1]) == seen + OwnEntries(l, own[..k]) + [Entry(l, own[k])];
    ScanSnoc(seen + OwnEntries(l, own[..k]), Entry(l, own[k]), now);
  }

  /** An entry found at step `k` is the answer for the whole lecture. */
  lemma FoundInLecture(seen: seq<Entry>, l: Lecture, own: seq<Schedule>, k: nat, now: LocalNow)
    requires k < |own| && ScanOf(seen + OwnEntries(l, own[..k + 1]), now).Found?
    ensures ScanOf(seen + OwnEntries(l, own), now) == ScanOf(seen + OwnEntries(l, own[..k + 1]), now)
  {
    SplitEntries(seen, l, own, k + 1);
    FoundStays(seen + OwnEntries(l, own[..k + 1]), OwnEntries(l, own[k + 1..]), now);
  }

  lemma SplitEntries(seen: seq<Entry>, l: Lecture, own: seq<Schedule>, k: nat)
    requires k <= |own|
    ensures seen + OwnEntries(l, own) == (seen + OwnEntries(l, own[..k])) + OwnEntries(l, own[k..])
  {
    assert own == own[..k] + own[k..];
    OwnEntriesAppend(l, own[..k], own[k..]);
  }

  /** `get_next_lecture`: the two nested loops over the user's lectures and their schedules. */
  method GetNextLecture(lectures: seq<Lecture>, schedules: seq<Schedule>, now: LocalNow) returns (r: NextLecture)
    ensures r == Next(lectures, schedules, now)
  {
    var upcoming: Option<Entry> := None;
    var i := 0;
    while i < |lectures|
      invariant 0 <= i <= |lectures|
      invariant ScanOf(Entries(lectures[..i], schedules), now) == Best(upcoming)
    {
      var l := lectures[i];
      var own := LectureSchedules(schedules, l.id);
      assert lectures[..i + 1][..i] == lectures[..i];
      assert Entries(lectures[..i + 1], schedules) == Entries(lectures[..i], schedules) + OwnEntries(l, own);
      var found, best := ScanLecture(l, own, now, upcoming, Entries(lectures[..i], schedules));
      if found.Some? {
        assert lectures == lectures[..i + 1] + lectures[i + 1..];
        EntriesAppend(lectures[..i + 1], lectures[i + 1..], schedules);
        FoundStays(Entries(lectures[..i + 1], schedules), Entries(lectures[i + 1..], schedules), now);
        var e := found.value;
        return Ongoing(e.lecture.name, e.schedule.start, e.schedule.end);
      }
      upcoming := best;
      i := i + 1;
    }
    assert lectures[..i] == lectures;
    if upcoming.Some? {
      r := Upcoming(upcoming.value.lecture.name, upcoming.value.schedule.start, upcoming.value.schedule.end);
    } else {
      r := NoLecture;
    }
  }

  /** The entries of two runs of lectures are those of the first, then those of the second. */
  lemma {:induction false} EntriesAppend(a: seq<Lecture>, b: seq<Lecture>, schedules: seq<Schedule>)
    ensures Entries(a + b, schedules) == Entries(a, schedules) + Entries(b, schedules)
    decreases |b|
  {
    if b != [] {
      var init := b[..|b| - 1];
      var l := b[|b| - 1];
      assert (a + b)[..|a + b| - 1] == a + init;
      assert b[..|b| - 1] == init;
      EntriesAppend(a, init, schedules);
    } else {
      assert a + b == a;
    }
  }

  /** `/next` answers "ongoing" with the first entry in session, if there is one. */
  lemma NextOngoing(lectures: seq<Lecture>, schedules: seq<Schedule>, now: LocalNow, es: seq<Entry>)
    requires es == Entries(lectures, schedules)
    ensures var r := Next(lectures, schedules, now);
      r.Ongoing? <==> exists i :: 0 <= i < |es| && IsOngoing(es[i], now)
    ensures var r := Next(lectures, schedules, now);
      r.Ongoing? ==> exists i :: (0 <= i < |es| && IsOngoing(es[i], now)
        && r == Ongoing(es[i].lecture.name, es[i].schedule.start, es[i].schedule.end)
        && forall j :: 0 <= j < i ==> !IsOngoing(es[j], now))
  {
    ScanMeaning(es, now);
    var st := ScanOf(es, now);
    if st.Found? {
      var i :| 0 <= i < |es| && es[i] == st.entry && IsOngoing(es[i], now)
        && forall j :: 0 <= j < i ==> !IsOngoing(es[j], now);
      assert Next(lectures, schedules, now) == Ongoing(es[i].lecture.name, es[i].schedule.start, es[i].schedule.end);
    }
  }

  /**
   * With no entry in session, `/next` answers "upcoming" with an entry
   * starting later today with the earliest start, the first such on ties.
   */
  lemma NextUpcoming(lectures: seq<Lecture>, schedules: seq<Schedule>, now: LocalNow, es: seq<Entry>)
    requires es == Entries(lectures, schedules)
    ensures var r := Next(lectures, schedules, now);
      r.Upcoming? ==> ((forall j :: 0 <= j < |es| ==> !IsOngoing(es[j], now))
        && exists i :: (0 <= i < |es| && IsLater(es[i], now)
          && r == Upcoming(es[i].lecture.name, es[i].schedule.start, es[i].schedule.end)
          && (forall j :: 0 <= j < |es| && IsLater(es[j], now) ==> es[i].schedule.start <= es[j].schedule.start)
          && (forall j :: 0 <= j < i && IsLater(es[j], now) ==> es[i].schedule.start < es[j].schedule.start)))
  {
    ScanMeaning(es, now);
    var st := ScanOf(es, now);
    if st.Best? && st.upcoming.Some? {
      var b := st.upcoming.value;
      var i :| 0 <= i < |es| && es[i] == b && IsLater(b, now)
        && (forall j :: 0 <= j < |es| && IsLater(es[j], now) ==> b.schedule.start <= es[j].schedule.start)
        && (forall j :: 0 <= j < i && IsLater(es[j], now) ==> b.schedule.start < es[j].schedule.start);
      assert Next(lectures, schedules, now) == Upcoming(es[i].lecture.name, es[i].schedule.start, es[i].schedule.end);
    }
  }

  /** `/next` answers "none" exactly when no entry is in session or starts later today. */
  lemma NextNone(lectures: seq<Lecture>, schedules: seq<Schedule>, now: LocalNow, es: seq<Entry>)
    requires es == Entries(lectures, schedules)
    ensures Next(lectures, schedules, now).NoLecture?
      <==> forall j :: 0 <= j < |es| ==> !IsOngoing(es[j], now) && !IsLater(es[j], now)
  {
    ScanMeaning(es, now);
    var st := ScanOf(es, now);
    if st.Found? {
      var i :| 0 <= i < |es| && es[i] == st.entry && IsOngoing(es[i], now)
        && forall j :: 0 <= j < i ==> !IsOngoing(es[j], now);
    } else if st.upcoming.Some? {
      var b := st.upcoming.value;
      var i :| 0 <= i < |es| && es[i] == b && IsLater(b, now)
        && (forall j :: 0 <= j < |es| && IsLater(es[j], now) ==> b.schedule.start <= es[j].schedule.start)
        && (forall j :: 0 <= j < i && IsLater(es[j], now) ==> b.schedule.start < es[j].schedule.start);
      assert IsLater(es[i], now);
    }
  }

  // ---------------------------------------------------------------------
  // POST /update_location
  // ---------------------------------------------------------------------

  /** The two tables the endpoint reads and writes. */
  datatype Links = Links(locations: seq<Location>, schedules: seq<Schedule>)

  /** The schedule's location text is set and parses as a room on campus. */
  predicate Offline(s: Schedule, parse: string -> LocationParser.ParsedLocation)
  {
    Truthy(s.location) && parse(s.location.value).kind == LocationParser.Offline
  }

  predicate Matches(loc: Location, code: Option<string>, room: Option<string>)
  {
    loc.buildingCode == code && loc.roomNumber == room
  }

  /** `query(LectureLocation).filter_by(building_code=code, room_number=room).first()`, as a row position. */
  function FindPlace(locations: seq<Location>, code: Option<string>, room: Option<string>): (r: Option<nat>)
    ensures r.Some? ==> (r.value < |locations| && Matches(locations[r.value], code, room)
      && forall j :: 0 <= j < r.value ==> !Matches(locations[j], code, room))
    ensures r.None? <==> forall j :: 0 <= j < |locations| ==> !Matches(locations[j], code, room)
  {
    if locations == [] then None
    else if Matches(locations[0], code, room) then Some(0)
    else match FindPlace(locations[1..], code, room)
      case None =>
        assert forall j :: 1 <= j < |locations| ==> locations[j] == locations[1..][j - 1];
        None
      case Some(k) =>
        assert forall j :: 1 <= j < k + 1 ==> locations[j] == locations[1..][j - 1];
        Some(k + 1)
  }

  /** No two rooms share a building code and a room number. */
  predicate UniquePlaces(locations: seq<Location>)
  {
    forall i, j :: 0 <= i < j < |locations| ==> !Matches(locations[j], locations[i].buildingCode, locations[i].roomNumber)
  }

  predicate UniqueIds(locations: seq<Location>)
  {
    forall i, j :: 0 <= i < j < |locations| ==> locations[i].id != locations[j].id
  }

  /**
   * The body of the inner loop for schedule `j`: an offline schedule is
   * linked to the room with its building code and room number, which is
   * created first when no row has that pair.
   */
  function LinkOne(st: Links, j: nat, parse: string -> LocationParser.ParsedLocation): Links
    requires j < |st.schedules|
  {
    var s := st.schedules[j];
    if !Offline(s, parse) then st
    else
      var p := parse(s.location.value);
      match FindPlace(st.locations, p.buildingCode, p.room)
      case Some(k) => Links(st.locations, st.schedules[j := s.(locationId := Some(st.locations[k].id))])
      case None =>
        var loc := Location(NextId(LocationIds(st.locations)), p.buildingCode, p.room, p.buildingName, None);
        Links(st.locations + [loc], st.schedules[j := s.(locationId := Some(loc.id))])
  }

  /** Lecture `lid`'s schedules among the first `upto` rows, in table order. */
  function LinkLecture(st: Links, lid: int, upto: nat, parse: string -> LocationParser.ParsedLocation): (r: Links)
    requires upto <= |st.schedules|
    ensures |r.schedules| == |st.schedules|
    decreases upto
  {
    if upto == 0 then st
    else
      var m := LinkLecture(st, lid, upto - 1, parse);
      if m.schedules[upto - 1].lectureId == lid then LinkOne(m, upto - 1, parse) else m
  }

  /** The outer loop over the lectures `lids`. */
  function LinkAll(st: Links, lids: seq<int>, parse: string -> LocationParser.ParsedLocation): (r: Links)
    ensures |r.schedules| == |st.schedules|
    decreases |lids|
  {
    if lids == [] then st
    else
      var m := LinkAll(st, lids[..|lids| - 1], parse);
      LinkLecture(m, lids[|lids| - 1], |m.schedules|, parse)
  }

  /** The rooms `b` keep the rooms `a` in place, and may add more after them. */
  predicate Extends(a: seq<Location>, b: seq<Location>)
  {
    |a| <= |b| && b[..|a|] == a
  }

  /**
   * `s` is offline schedule `s0` linked to the first room in `locations`
   * with the building code and room number its location text names.
   */
  predicate Linked(s0: Schedule, s: Schedule, locations: seq<Location>, parse: string -> LocationParser.ParsedLocation)
  {
    Offline(s0, parse)
    && var p := parse(s0.location.value);
    FindPlace(locations, p.buildingCode, p.room).Some?
    && s == s0.(locationId := Some(locations[FindPlace(locations, p.buildingCode, p.room).value].id))
  }

  /** A room found in a table is still the first one found once rooms are added after it. */
  lemma FindPlaceExtends(a: seq<Location>, b: seq<Location>, code: Option<string>, room: Option<string>)
    requires Extends(a, b) && FindPlace(a, code, room).Some?
    ensures FindPlace(b, code, room) == FindPlace(a, code, room)
  {
    var k := FindPlace(a, code, room).value;
    assert forall j :: 0 <= j <= k ==> b[j] == a[j] by {
      forall j | 0 <= j <= k ensures b[j] == a[j] { assert b[..|a|][j] == a[j]; }
    }
  }

  lemma LinkedStays(s0: Schedule, s: Schedule, a: seq<Location>, b: seq<Location>, parse: string -> LocationParser.ParsedLocation)
    requires Linked(s0, s, a, parse) && Extends(a, b)
    ensures Linked(s0, s, b, parse)
  {
    var p := parse(s0.location.value);
    FindPlaceExtends(a, b, p.buildingCode, p.room);
    var k := FindPlace(a, p.buildingCode, p.room).value;
    assert b[k] == b[..|a|][k];
  }

  /**
   * One step links an offline schedule and changes no other schedule; the
   * rooms grow by at most one at the end, and stay without duplicate pairs
   * and without duplicate ids.
   */
  lemma LinkOneMeaning(st: Links, j: nat, parse: string -> LocationParser.ParsedLocation)
    requires j < |st.schedules|
    ensures var r := LinkOne(st, j, parse);
      |r.schedules| == |st.schedules| && Extends(st.locations, r.locations)
      && (forall q :: 0 <= q < |st.schedules| && q != j ==> r.schedules[q] == st.schedules[q])
      && (Offline(st.schedules[j], parse) ==> Linked(st.schedules[j], r.schedules[j], r.locations, parse))
      && (!Offline(st.schedules[j], parse) ==> r == st)
      && (UniquePlaces(st.locations) ==> UniquePlaces(r.locations))
      && (UniqueIds(st.locations) ==> UniqueIds(r.locations))
  {
    var s := st.schedules[j];
    if Offline(s, parse) {
      var p := parse(s.location.value);
      var r := LinkOne(st, j, parse);
      if FindPlace(st.locations, p.buildingCode, p.room).None? {
        var loc := Location(NextId(LocationIds(st.locations)), p.buildingCode, p.room, p.buildingName, None);
        var n := st.locations + [loc];
        assert n[..|st.locations|] == st.locations;
        AppendedPlace(st.locations, loc);
        assert forall q :: 0 <= q < |st.locations| ==> n[q] == st.locations[q];
        assert forall q :: 0 <= q < |st.locations| ==> st.locations[q].id == LocationIds(st.locations)[q];
      }
    }
  }

  /** A room appended for a pair no row has is the one found for that pair. */
  lemma AppendedPlace(locations: seq<Location>, loc: Location)
    requires FindPlace(locations, loc.buildingCode, loc.roomNumber).None?
    ensures FindPlace(locations + [loc], loc.buildingCode, loc.roomNumber) == Some(|locations|)
  {
    var n := locations + [loc];
    assert Matches(n[|locations|], loc.buildingCode, loc.roomNumber);
    forall q | 0 <= q < |locations| ensures !Matches(n[q], loc.buildingCode, loc.roomNumber) {
      assert n[q] == locations[q];
    }
  }

  /** Re-linking a schedule that is already linked changes nothing. */
  lemma RelinkSame(st: Links, j: nat, s0: Schedule, parse: string -> LocationParser.ParsedLocation)
    requires j < |st.schedules| && Linked(s0, st.schedules[j], st.locations, parse)
    ensures LinkOne(st, j, parse) == st && Linked(s0, st.schedules[j], st.locations, parse)
  {
    assert Offline(st.schedules[j], parse);
    assert st.schedules[j := st.schedules[j]] == st.schedules;
  }

  /** Linking again the schedule `s1`, a link of `s0`, gives a link of `s0`. */
  lemma LinkedAgain(s0: Schedule, s1: Schedule, s2: Schedule, a: seq<Location>, b: seq<Location>,
                    parse: string -> LocationParser.ParsedLocation)
    requires Linked(s0, s1, a, parse) && Linked(s1, s2, b, parse)
    ensures Linked(s0, s2, b, parse)
  {
  }

  /**
   * After the inner loop over the first `upto` rows, lecture `lid`'s offline
   * schedules among them are linked and every other schedule is unchanged.
   */
  lemma {:induction false} LinkLectureMeaning(st: Links, lid: int, upto: nat, parse: string -> LocationParser.ParsedLocation)
    requires upto <= |st.schedules|
    ensures var r := LinkLecture(st, lid, upto, parse);
      Extends(st.locations, r.locations)
      && (forall q :: 0 <= q < |st.schedules| ==>
        if q < upto && st.schedules[q].lectureId == lid && Offline(st.schedules[q], parse)
        then Linked(st.schedules[q], r.schedules[q], r.locations, parse)
        else r.schedules[q] == st.schedules[q])
      && (UniquePlaces(st.locations) ==> UniquePlaces(r.locations))
      && (UniqueIds(st.locations) ==> UniqueIds(r.locations))
    decreases upto
  {
    if upto > 0 {
      var m := LinkLecture(st, lid, upto - 1, parse);
      LinkLectureMeaning(st, lid, upto - 1, parse);
      var j := upto - 1;
      assert m.schedules[j] == st.schedules[j];
      if m.schedules[j].lectureId == lid {
        var r := LinkOne(m, j, parse);
        LinkOneMeaning(m, j, parse);
        forall q | 0 <= q < |st.schedules|
          ensures if q < upto && st.schedules[q].lectureId == lid && Offline(st.schedules[q], parse)
            then Linked(st.schedules[q], r.schedules[q], r.locations, parse)
            else r.schedules[q] == st.schedules[q]
        {
          if q != j && q < upto - 1 && st.schedules[q].lectureId == lid && Offline(st.schedules[q], parse) {
            LinkedStays(st.schedules[q], m.schedules[q], m.locations, r.locations, parse);
          }
        }
        ExtendsTrans(st.locations, m.locations, r.locations);
      }
    }
  }

  lemma ExtendsTrans(a: seq<Location>, b: seq<Location>, c: seq<Location>)
    requires Extends(a, b) && Extends(b, c)
    ensures Extends(a, c)
  {
    assert c[..|a|] == c[..|b|][..|a|];
  }

  /**
   * After `update_location` over the lectures `lids`, the offline schedules
   * of those lectures are linked to the room their text names and every
   * other schedule is unchanged; rooms are only added, never with a pair
   * already present, and ids stay distinct.
   */
  lemma {:induction false} LinkAllMeaning(st: Links, lids: seq<int>, parse: string -> LocationParser.ParsedLocation)
    ensures var r := LinkAll(st, lids, parse);
      Extends(st.locations, r.locations)
      && (forall q :: 0 <= q < |st.schedules| ==>
        if st.schedules[q].lectureId in lids && Offline(st.schedules[q], parse)
        then Linked(st.schedules[q], r.schedules[q], r.locations, parse)
        else r.schedules[q] == st.schedules[q])
      && (UniquePlaces(st.locations) ==> UniquePlaces(r.locations))
      && (UniqueIds(st.locations) ==> UniqueIds(r.locations))
    decreases |lids|
  {
    if lids == [] {
      assert st.locations[..|st.locations|] == st.locations;
    } else {
      var init := lids[..|lids| - 1];
      var lid := lids[|lids| - 1];
      var m := LinkAll(st, init, parse);
      LinkAllMeaning(st, init, parse);
      var r := LinkLecture(m, lid, |m.schedules|, parse);
      LinkLectureMeaning(m, lid, |m.schedules|, parse);
      ExtendsTrans(st.locations, m.locations, r.locations);
      assert forall x :: x in lids <==> x in init || x == lid by {
        assert lids == init + [lid];
      }
      forall q | 0 <= q < |st.schedules|
        ensures if st.schedules[q].lectureId in lids && Offline(st.schedules[q], parse)
          then Linked(st.schedules[q], r.schedules[q], r.locations, parse)
          else r.schedules[q] == st.schedules[q]
      {
        var s0 := st.schedules[q];
        if s0.lectureId in init && Offline(s0, parse) {
          if m.schedules[q].lectureId == lid && Offline(m.schedules[q], parse) {
            LinkedAgain(s0, m.schedules[q], r.schedules[q], m.locations, r.locations, parse);
          } else {
            LinkedStays(s0, m.schedules[q], m.locations, r.locations, parse);
          }
        }
      }
    }
  }

  /** The inner loop for lecture `lid`: every row of the schedule table, in order. */
  method LinkLectureRows(db: Db, lid: int, parse: string -> LocationParser.ParsedLocation)
    modifies db`locations, db`schedules
    ensures Links(db.locations, db.schedules) == LinkLecture(Links(old(db.locations), old(db.schedules)), lid, |old(db.schedules)|, parse)
  {
    ghost var st := Links(db.locations, db.schedules);
    var j := 0;
    while j < |db.schedules|
      invariant |db.schedules| == |st.schedules| && 0 <= j <= |db.schedules|
      invariant Links(db.locations, db.schedules) == LinkLecture(st, lid, j, parse)
    {
      var s := db.schedules[j];
      if s.lectureId == lid && Truthy(s.location) {
        var p := parse(s.location.value);
        if p.kind == LocationParser.Offline {
          var k := FindPlace(db.locations, p.buildingCode, p.room);
          var id;
          if k.None? {
            id := NextId(LocationIds(db.locations));
            db.locations := db.locations + [Location(id, p.buildingCode, p.room, p.buildingName, None)];
          } else {
            id := db.locations[k.value].id;
          }
          db.schedules := db.schedules[j := s.(locationId := Some(id))];
        }
      }
      j := j + 1;
    }
  }

  const NoLectures := "등록된 강의가 없습니다."
  const LocationsUpdated := "강의실 위치가 업데이트되었습니다."

  datatype LocationReply = LocationReply(status: string, message: string)

  /**
   * `api_update_location`: with no lectures, status `empty` and no change;
   * otherwise every offline schedule of the user's lectures is linked to
   * its room, lecture by lecture.
   */
  method UpdateLocation(db: Db, userId: int) returns (r: LocationReply)
    modifies db`locations, db`schedules
    ensures var lids := LectureIds(UserLectures(db.enrolments, db.lectures, userId));
      (lids == [] ==> (r == LocationReply("empty", NoLectures)
        && db.locations == old(db.locations) && db.schedules == old(db.schedules)))
      && (lids != [] ==> (r == LocationReply("success", LocationsUpdated)
        && Links(db.locations, db.schedules)
           == LinkAll(Links(old(db.locations), old(db.schedules)), lids, LocationParser.ParseLocation)))
  {
    var lectures := UserLectures(db.enrolments, db.lectures, userId);
    var lids := LectureIds(lectures);
    if lids == [] {
      return LocationReply("empty", NoLectures);
    }
    ghost var st := Links(db.locations, db.schedules);
    var i := 0;
    while i < |lids|
      invariant 0 <= i <= |lids|
      invariant Links(db.locations, db.schedules) == LinkAll(st, lids[..i], LocationParser.ParseLocation)
    {
      assert lids[..i + 1][..i] == lids[..i];
      LinkLectureRows(db, lids[i], LocationParser.ParseLocation);
      i := i + 1;
    }
    assert lids[..i] == lids;
    r := LocationReply("success", LocationsUpdated);
  }
}
