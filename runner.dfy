/**
 * One pass of the automatic attendance runner and the two queries that
 * choose how long it sleeps. The clock is a parameter: `nowUtc` is the
 * instant, in microseconds since the epoch, that `datetime.now(KST)` reads.
 * The worker processes are not run; a pass returns the launches it makes.
 */
module Runner {
  import opened Common
  import opened TimeOfDay
  import opened Models
  import ScheduleChecker
  import opened AttendanceWindow

  /** `query(User).filter_by(id=id, is_pro=True).first()` finds a user. */
  predicate ProUser(users: seq<User>, id: int)
    reads users
  {
    exists u :: u in users && u.id == id && u.isPro
  }

  /** The row has a Pro user and an existing lecture: the loops `continue` otherwise. */
  predicate Eligible(users: seq<User>, lectures: seq<Lecture>, e: Enrolment)
    reads users
  {
    ProUser(users, e.userId) && FindLecture(lectures, e.lectureId).Some?
  }

  /** `user_lecture.select().where(auto_attendance_enabled == True)`, in table order. */
  function EnabledRows(enrolments: seq<Enrolment>): (r: seq<Enrolment>)
    ensures |r| <= |enrolments|
    ensures forall e :: e in r <==> e in enrolments && e.autoEnabled
  {
    if enrolments == [] then []
    else
      var front := EnabledRows(enrolments[..|enrolments| - 1]);
      var last := enrolments[|enrolments| - 1];
      assert forall e :: e in enrolments <==> e in enrolments[..|enrolments| - 1] || e == last;
      if last.autoEnabled then front + [last] else front
  }

  // ---------------------------------------------------------------------
  // The "HH:MM" comparison of the runner

  /**
   * `weekday == now.weekday()` and `start.strftime("%H:%M") <= now.strftime("%H:%M")
   * <= end.strftime("%H:%M")`, as string comparisons.
   */
  predicate SlotNow(s: Schedule, now: LocalNow)
  {
    s.weekday == now.weekday
    && LexLe(FormatHM(s.start), FormatHM(MinuteOf(now))) && LexLe(FormatHM(MinuteOf(now)), FormatHM(s.end))
  }

  /** The string comparison is the comparison of minutes of the day. */
  lemma SlotNowMinutes(s: Schedule, now: LocalNow)
    ensures SlotNow(s, now) <==> s.weekday == now.weekday && s.start <= MinuteOf(now) <= s.end
  {
    FormatOrder(s.start, MinuteOf(now));
    FormatOrder(MinuteOf(now), s.end);
  }

  /**
   * The runner's window contains the in-session window of the lecture
   * check, and also every later instant of the end minute, which that
   * check excludes.
   */
  lemma SlotNowWider(s: Schedule, now: LocalNow)
    ensures ScheduleChecker.InLecture(s, now) ==> SlotNow(s, now)
    ensures s.weekday == now.weekday && MinuteOf(now) == s.end && s.start <= s.end ==> SlotNow(s, now)
  {
    SlotNowMinutes(s, now);
    ScheduleChecker.InLectureMinutes(s, now);
  }

  // ---------------------------------------------------------------------
  // any_ongoing_lecture

  /** Some schedule of the row's lecture matches now by the runner's comparison. */
  predicate RowOngoing(schedules: seq<Schedule>, e: Enrolment, now: LocalNow)
  {
    exists k :: 0 <= k < |LectureSchedules(schedules, e.lectureId)| && SlotNow(LectureSchedules(schedules, e.lectureId)[k], now)
  }

  /** The scan of a lecture's schedules for one matching now, stopping at the first. */
  method ScanSlots(own: seq<Schedule>, now: LocalNow) returns (found: bool)
    ensures found <==> exists q :: 0 <= q < |own| && SlotNow(own[q], now)
  {
    var k := 0;
    while k < |own|
      invariant 0 <= k <= |own|
      invariant forall q :: 0 <= q < k ==> !SlotNow(own[q], now)
    {
      if SlotNow(own[k], now) {
        return true;
      }
      k := k + 1;
    }
    return false;
  }

  /** An eligible row whose lecture is in session by the runner's comparison. */
  predicate RowInSession(users: seq<User>, lectures: seq<Lecture>, schedules: seq<Schedule>, e: Enrolment, now: LocalNow)
    reads users
  {
    Eligible(users, lectures, e) && RowOngoing(schedules, e, now)
  }

  /** `any_ongoing_lecture(db)`, with `now` the Korean wall-clock reading. */
  method AnyOngoing(db: Db, now: LocalNow) returns (b: bool)
    ensures b <==> exists i :: (0 <= i < |EnabledRows(db.enrolments)|
                                && RowInSession(db.users, db.lectures, db.schedules, EnabledRows(db.enrolments)[i], now))
  {
    var rows := EnabledRows(db.enrolments);
    var i := 0;
    while i < |rows|
      invariant 0 <= i <= |rows|
      invariant forall j :: 0 <= j < i ==> !RowInSession(db.users, db.lectures, db.schedules, rows[j], now)
    {
      if Eligible(db.users, db.lectures, rows[i]) {
        var ongoing := ScanSlots(LectureSchedules(db.schedules, rows[i].lectureId), now);
        if ongoing {
          assert RowInSession(db.users, db.lectures, db.schedules, EnabledRows(db.enrolments)[i], now);
          return true;
        }
      }
      i := i + 1;
    }
    return false;
  }

  // ---------------------------------------------------------------------
  // get_soonest_next_start_time

  /** Today's start at minute `m` lies strictly after now. */
  predicate Later(nowUtc: int, m: Minute)
  {
    KstTodayAt(nowUtc, m) > nowUtc
  }

  /** A start later today is a start minute past the current instant of the Korean day. */
  lemma LaterMeaning(nowUtc: int, m: Minute)
    ensures Later(nowUtc, m) <==> m * MicrosPerMinute > KstNow(nowUtc).micros
  {
    var q := KstDay(nowUtc);
    var x := nowUtc + KstOffset;
    assert x == q * MicrosPerDay + x % MicrosPerDay;
    assert KstMidnightUtc(nowUtc) == q * MicrosPerDay - KstOffset;
  }

  /** Schedule `k` of row `i` of `rows` starts at minute `m`, later today. */
  predicate CandidateAt(users: seq<User>, lectures: seq<Lecture>, schedules: seq<Schedule>, rows: seq<Enrolment>,
                        nowUtc: int, i: int, k: int, m: Minute)
    reads users
  {
    0 <= i < |rows| && Eligible(users, lectures, rows[i])
    && 0 <= k < |LectureSchedules(schedules, rows[i].lectureId)|
    && LectureSchedules(schedules, rows[i].lectureId)[k].weekday == KstNow(nowUtc).weekday
    && LectureSchedules(schedules, rows[i].lectureId)[k].start == m && Later(nowUtc, m)
  }

  /**
   * `get_soonest_next_start_time(db)`, as the minute of today's soonest
   * start: the least start minute later than now among the schedules of
   * eligible enabled rows on today's weekday, or `None` when there is none.
   */
  method SoonestNextStart(db: Db, nowUtc: int) returns (r: Option<Minute>)
    ensures r.Some? ==> exists i, k :: CandidateAt(db.users, db.lectures, db.schedules, EnabledRows(db.enrolments), nowUtc, i, k, r.value)
    ensures r.Some? ==> forall i, k, m :: CandidateAt(db.users, db.lectures, db.schedules, EnabledRows(db.enrolments), nowUtc, i, k, m) ==> r.value <= m
    ensures r.None? ==> forall i, k, m :: !CandidateAt(db.users, db.lectures, db.schedules, EnabledRows(db.enrolments), nowUtc, i, k, m)
  {
    var rows := EnabledRows(db.enrolments);
    r := None;
    var i := 0;
    while i < |rows|
      invariant 0 <= i <= |rows|
      invariant r.Some? ==> exists i', k :: CandidateAt(db.users, db.lectures, db.schedules, rows, nowUtc, i', k, r.value)
      invariant forall i', k, m :: i' < i && CandidateAt(db.users, db.lectures, db.schedules, rows, nowUtc, i', k, m) ==> r.Some? && r.value <= m
    {
      if Eligible(db.users, db.lectures, rows[i]) {
        r := SoonestInRow(db, nowUtc, rows, i, r);
      }
      i := i + 1;
    }
  }

  /** The inner loop of `get_soonest_next_start_time`: the schedules of row `i` folded into the least start so far. */
  method SoonestInRow(db: Db, nowUtc: int, rows: seq<Enrolment>, i: nat, r0: Option<Minute>) returns (r: Option<Minute>)
    requires i < |rows| && Eligible(db.users, db.lectures, rows[i])
    requires r0.Some? ==> exists i', k :: CandidateAt(db.users, db.lectures, db.schedules, rows, nowUtc, i', k, r0.value)
    requires forall i', k, m :: i' < i && CandidateAt(db.users, db.lectures, db.schedules, rows, nowUtc, i', k, m) ==> r0.Some? && r0.value <= m
    ensures r.Some? ==> exists i', k :: CandidateAt(db.users, db.lectures, db.schedules, rows, nowUtc, i', k, r.value)
    ensures forall i', k, m :: i' <= i && CandidateAt(db.users, db.lectures, db.schedules, rows, nowUtc, i', k, m) ==> r.Some? && r.value <= m
  {
    var weekday := KstNow(nowUtc).weekday;
    var own := LectureSchedules(db.schedules, rows[i].lectureId);
    r := r0;
    var k := 0;
    while k < |own|
      invariant 0 <= k <= |own|
      invariant r.Some? ==> exists i', k' :: CandidateAt(db.users, db.lectures, db.schedules, rows, nowUtc, i', k', r.value)
      invariant forall i', k', m :: (i' < i || (i' == i && k' < k)) && CandidateAt(db.users, db.lectures, db.schedules, rows, nowUtc, i', k', m) ==> r.Some? && r.value <= m
    {
      var s := own[k];
      if s.weekday == weekday && Later(nowUtc, s.start) {
        assert CandidateAt(db.users, db.lectures, db.schedules, rows, nowUtc, i, k, s.start);
        if r.None? || s.start < r.value {
          r := Some(s.start);
        }
      }
      k := k + 1;
    }
  }

  // ---------------------------------------------------------------------
  // One pass of the runner loop

  /** A worker process started for a row: the row's pair and the script it runs. */
  datatype Launch = Launch(userId: int, lectureId: int, script: string)

  const WorkerScripts: seq<string> :=
    ["auto_attendance_worker_part1.py", "auto_attendance_worker_part2.py", "auto_attendance_worker_part3.py"]

  /**
   * A row the pass starts workers for: eligible, not yet attended today,
   * not in progress when the rows were read, and with a schedule matching now.
   */
  predicate Selected(users: seq<User>, lectures: seq<Lecture>, schedules: seq<Schedule>, attendance: seq<AttendanceLog>,
                     e: Enrolment, nowUtc: int)
    reads users
  {
    Eligible(users, lectures, e) && !AttendedToday(attendance, e.userId, e.lectureId, nowUtc) && !e.inProgress
    && RowOngoing(schedules, e, KstNow(nowUtc))
  }

  /** The three worker processes of one row. */
  function WorkersFor(e: Enrolment): (r: seq<Launch>)
    ensures |r| == |WorkerScripts| && forall j :: 0 <= j < |r| ==> r[j] == Launch(e.userId, e.lectureId, WorkerScripts[j])
  {
    seq(|WorkerScripts|, j requires 0 <= j < |WorkerScripts| => Launch(e.userId, e.lectureId, WorkerScripts[j]))
  }

  /** The launches of a pass over `rows`, in row order. */
  function PassLaunches(users: seq<User>, lectures: seq<Lecture>, schedules: seq<Schedule>, attendance: seq<AttendanceLog>,
                        rows: seq<Enrolment>, nowUtc: int): seq<Launch>
    reads users
  {
    if rows == [] then []
    else
      var front := PassLaunches(users, lectures, schedules, attendance, rows[..|rows| - 1], nowUtc);
      if Selected(users, lectures, schedules, attendance, rows[|rows| - 1], nowUtc) then front + WorkersFor(rows[|rows| - 1])
      else front
  }

  /** The association table after a pass over `rows`. */
  function PassFlags(enrolments: seq<Enrolment>, users: seq<User>, lectures: seq<Lecture>, schedules: seq<Schedule>,
                     attendance: seq<AttendanceLog>, rows: seq<Enrolment>, nowUtc: int): seq<Enrolment>
    reads users
  {
    if rows == [] then enrolments
    else
      var front := PassFlags(enrolments, users, lectures, schedules, attendance, rows[..|rows| - 1], nowUtc);
      var e := rows[|rows| - 1];
      if Selected(users, lectures, schedules, attendance, e, nowUtc) then SetInProgress(front, e.userId, e.lectureId, true)
      else front
  }

  /** The three `subprocess.Popen` calls for one row, in script order. */
  method StartWorkers(row: Enrolment) returns (started: seq<Launch>)
    ensures started == WorkersFor(row)
  {
    started := [];
    var w := 0;
    while w < |WorkerScripts|
      invariant 0 <= w <= |WorkerScripts|
      invariant started == WorkersFor(row)[..w]
    {
      started := started + [Launch(row.userId, row.lectureId, WorkerScripts[w])];
      w := w + 1;
    }
  }

  /**
   * The body of the pass for one row: the skips, then the scan of the
   * lecture's schedules; at the first match the flag is set, the workers
   * are started and the scan stops.
   */
  method PassRow(db: Db, row: Enrolment, nowUtc: int) returns (started: seq<Launch>)
    modifies db`enrolments
    ensures Selected(db.users, db.lectures, db.schedules, db.attendance, row, nowUtc) ==>
      started == WorkersFor(row) && db.enrolments == SetInProgress(old(db.enrolments), row.userId, row.lectureId, true)
    ensures !Selected(db.users, db.lectures, db.schedules, db.attendance, row, nowUtc) ==>
      started == [] && db.enrolments == old(db.enrolments)
  {
    started := [];
    var now := KstNow(nowUtc);
    if !Eligible(db.users, db.lectures, row) || AttendedToday(db.attendance, row.userId, row.lectureId, nowUtc) || row.inProgress {
      return;
    }
    var ongoing := ScanSlots(LectureSchedules(db.schedules, row.lectureId), now);
    if ongoing {
      db.enrolments := SetInProgress(db.enrolments, row.userId, row.lectureId, true);
      started := StartWorkers(row);
    }
  }

  /**
   * One iteration of `auto_attendance_runner_loop` before its sleep: the
   * rows are read once, and each row is processed against that reading.
   */
  method RunnerPass(db: Db, nowUtc: int) returns (launches: seq<Launch>)
    modifies db`enrolments
    ensures launches == PassLaunches(db.users, db.lectures, db.schedules, db.attendance, EnabledRows(old(db.enrolments)), nowUtc)
    ensures db.enrolments == PassFlags(old(db.enrolments), db.users, db.lectures, db.schedules, db.attendance,
                                       EnabledRows(old(db.enrolments)), nowUtc)
  {
    var rows := EnabledRows(db.enrolments);
    ghost var before := db.enrolments;
    launches := [];
    var i := 0;
    while i < |rows|
      invariant 0 <= i <= |rows|
      invariant launches == PassLaunches(db.users, db.lectures, db.schedules, db.attendance, rows[..i], nowUtc)
      invariant db.enrolments == PassFlags(before, db.users, db.lectures, db.schedules, db.attendance, rows[..i], nowUtc)
    {
      assert rows[..i + 1][..i] == rows[..i];
      var started := PassRow(db, rows[i], nowUtc);
      launches := launches + started;
      i := i + 1;
    }
    assert rows[..i] == rows;
  }

  /** Every launch in `r` is a worker of a selected row of `rows`. */
  predicate LaunchesSound(users: seq<User>, lectures: seq<Lecture>, schedules: seq<Schedule>,
                          attendance: seq<AttendanceLog>, rows: seq<Enrolment>, nowUtc: int, r: seq<Launch>)
    reads users
  {
    forall l :: l in r ==> l.script in WorkerScripts && exists i :: (0 <= i < |rows|
      && Selected(users, lectures, schedules, attendance, rows[i], nowUtc)
      && l.userId == rows[i].userId && l.lectureId == rows[i].lectureId)
  }

  /** Every selected row of `rows` has a launch in `r` for each of the three scripts. */
  predicate LaunchesComplete(users: seq<User>, lectures: seq<Lecture>, schedules: seq<Schedule>,
                             attendance: seq<AttendanceLog>, rows: seq<Enrolment>, nowUtc: int, r: seq<Launch>)
    reads users
  {
    forall i, j :: 0 <= i < |rows| && 0 <= j < |WorkerScripts| && Selected(users, lectures, schedules, attendance, rows[i], nowUtc) ==>
      Launch(rows[i].userId, rows[i].lectureId, WorkerScripts[j]) in r
  }

  /**
   * What a pass launches: only workers of selected rows, and for each
   * selected row a worker for each of the three scripts.
   */
  lemma {:induction false} PassLaunchesMeaning(users: seq<User>, lectures: seq<Lecture>, schedules: seq<Schedule>,
                                                attendance: seq<AttendanceLog>, rows: seq<Enrolment>, nowUtc: int)
    ensures LaunchesSound(users, lectures, schedules, attendance, rows, nowUtc,
                          PassLaunches(users, lectures, schedules, attendance, rows, nowUtc))
    ensures LaunchesComplete(users, lectures, schedules, attendance, rows, nowUtc,
                             PassLaunches(users, lectures, schedules, attendance, rows, nowUtc))
  {
    if rows != [] {
      var init := rows[..|rows| - 1];
      PassLaunchesMeaning(users, lectures, schedules, attendance, init, nowUtc);
      var front := PassLaunches(users, lectures, schedules, attendance, init, nowUtc);
      var r := PassLaunches(users, lectures, schedules, attendance, rows, nowUtc);
      PassSoundStep(users, lectures, schedules, attendance, rows, nowUtc, front, r);
      PassCompleteStep(users, lectures, schedules, attendance, rows, nowUtc, front, r);
    }
  }

  /** One row more keeps every launch attributed to a selected row. */
  lemma PassSoundStep(users: seq<User>, lectures: seq<Lecture>, schedules: seq<Schedule>, attendance: seq<AttendanceLog>,
                      rows: seq<Enrolment>, nowUtc: int, front: seq<Launch>, r: seq<Launch>)
    requires rows != []
    requires LaunchesSound(users, lectures, schedules, attendance, rows[..|rows| - 1], nowUtc, front)
    requires r == if Selected(users, lectures, schedules, attendance, rows[|rows| - 1], nowUtc)
                  then front + WorkersFor(rows[|rows| - 1]) else front
    ensures LaunchesSound(users, lectures, schedules, attendance, rows, nowUtc, r)
  {
    var init := rows[..|rows| - 1];
    var e := rows[|rows| - 1];
    forall l | l in r
      ensures l.script in WorkerScripts && exists i :: (0 <= i < |rows|
        && Selected(users, lectures, schedules, attendance, rows[i], nowUtc)
        && l.userId == rows[i].userId && l.lectureId == rows[i].lectureId)
    {
      if l in front {
        assert l in front;
        var i :| 0 <= i < |init| && Selected(users, lectures, schedules, attendance, init[i], nowUtc)
          && l.userId == init[i].userId && l.lectureId == init[i].lectureId;
        assert rows[i] == init[i];
      } else {
        var j :| 0 <= j < |WorkersFor(e)| && WorkersFor(e)[j] == l;
        assert rows[|rows| - 1] == e;
      }
    }
  }

  /** One row more keeps a launch for every script of every selected row. */
  lemma PassCompleteStep(users: seq<User>, lectures: seq<Lecture>, schedules: seq<Schedule>, attendance: seq<AttendanceLog>,
                         rows: seq<Enrolment>, nowUtc: int, front: seq<Launch>, r: seq<Launch>)
    requires rows != []
    requires LaunchesComplete(users, lectures, schedules, attendance, rows[..|rows| - 1], nowUtc, front)
    requires r == if Selected(users, lectures, schedules, attendance, rows[|rows| - 1], nowUtc)
                  then front + WorkersFor(rows[|rows| - 1]) else front
    ensures LaunchesComplete(users, lectures, schedules, attendance, rows, nowUtc, r)
  {
    var init := rows[..|rows| - 1];
    var e := rows[|rows| - 1];
    forall i, j | 0 <= i < |rows| && 0 <= j < |WorkerScripts| && Selected(users, lectures, schedules, attendance, rows[i], nowUtc)
      ensures Launch(rows[i].userId, rows[i].lectureId, WorkerScripts[j]) in r
    {
      if i < |init| {
        assert rows[i] == init[i];
      } else {
        assert WorkersFor(e)[j] == Launch(rows[i].userId, rows[i].lectureId, WorkerScripts[j]);
      }
    }
  }

  /**
   * `r` is `enrolments` with the rows in place, each keeping its pair and its
   * enabled flag, and in progress exactly when it was before or its pair is
   * that of a selected row of `rows`.
   */
  predicate FlagsAfter(enrolments: seq<Enrolment>, users: seq<User>, lectures: seq<Lecture>, schedules: seq<Schedule>,
                       attendance: seq<AttendanceLog>, rows: seq<Enrolment>, nowUtc: int, r: seq<Enrolment>)
    reads users
  {
    |r| == |enrolments|
    && forall j :: 0 <= j < |r| ==>
      r[j].userId == enrolments[j].userId && r[j].lectureId == enrolments[j].lectureId
      && r[j].autoEnabled == enrolments[j].autoEnabled
      && (r[j].inProgress <==> enrolments[j].inProgress || exists i :: (0 <= i < |rows|
            && Selected(users, lectures, schedules, attendance, rows[i], nowUtc)
            && rows[i].userId == enrolments[j].userId && rows[i].lectureId == enrolments[j].lectureId))
  }

  /** What a pass does to the association table. */
  lemma {:induction false} PassFlagsMeaning(enrolments: seq<Enrolment>, users: seq<User>, lectures: seq<Lecture>,
                                            schedules: seq<Schedule>, attendance: seq<AttendanceLog>, rows: seq<Enrolment>, nowUtc: int)
    ensures FlagsAfter(enrolments, users, lectures, schedules, attendance, rows, nowUtc,
                       PassFlags(enrolments, users, lectures, schedules, attendance, rows, nowUtc))
  {
    if rows != [] {
      var init := rows[..|rows| - 1];
      PassFlagsMeaning(enrolments, users, lectures, schedules, attendance, init, nowUtc);
      FlagsStep(enrolments, users, lectures, schedules, attendance, rows, nowUtc,
                PassFlags(enrolments, users, lectures, schedules, attendance, init, nowUtc),
                PassFlags(enrolments, users, lectures, schedules, attendance, rows, nowUtc));
    }
  }

  /** One row more: its pair is set in progress when it is selected. */
  lemma FlagsStep(enrolments: seq<Enrolment>, users: seq<User>, lectures: seq<Lecture>, schedules: seq<Schedule>,
                  attendance: seq<AttendanceLog>, rows: seq<Enrolment>, nowUtc: int, front: seq<Enrolment>, r: seq<Enrolment>)
    requires rows != []
    requires FlagsAfter(enrolments, users, lectures, schedules, attendance, rows[..|rows| - 1], nowUtc, front)
    requires var e := rows[|rows| - 1];
      r == if Selected(users, lectures, schedules, attendance, e, nowUtc) then SetInProgress(front, e.userId, e.lectureId, true)
           else front
    ensures FlagsAfter(enrolments, users, lectures, schedules, attendance, rows, nowUtc, r)
  {
    var init := rows[..|rows| - 1];
    var e := rows[|rows| - 1];
    var sel := Selected(users, lectures, schedules, attendance, e, nowUtc);
    forall j | 0 <= j < |r|
      ensures r[j].userId == enrolments[j].userId && r[j].lectureId == enrolments[j].lectureId
        && r[j].autoEnabled == enrolments[j].autoEnabled
        && (r[j].inProgress <==> enrolments[j].inProgress || exists i :: (0 <= i < |rows|
              && Selected(users, lectures, schedules, attendance, rows[i], nowUtc)
              && rows[i].userId == enrolments[j].userId && rows[i].lectureId == enrolments[j].lectureId))
    {
      assert front[j].userId == enrolments[j].userId && front[j].lectureId == enrolments[j].lectureId;
      var hit := sel && front[j].userId == e.userId && front[j].lectureId == e.lectureId;
      assert r[j] == if hit then front[j].(inProgress := true) else front[j];
      if hit {
        assert rows[|rows| - 1] == e;
      } else {
        assert !(Selected(users, lectures, schedules, attendance, e, nowUtc)
                 && e.userId == enrolments[j].userId && e.lectureId == enrolments[j].lectureId);
        assert forall i :: 0 <= i < |init| ==> rows[i] == init[i];
        if exists i :: (0 <= i < |rows| && Selected(users, lectures, schedules, attendance, rows[i], nowUtc)
                   && rows[i].userId == enrolments[j].userId && rows[i].lectureId == enrolments[j].lectureId) {
          var i :| 0 <= i < |rows| && Selected(users, lectures, schedules, attendance, rows[i], nowUtc)
                   && rows[i].userId == enrolments[j].userId && rows[i].lectureId == enrolments[j].lectureId;
          assert i != |rows| - 1;
          assert rows[i] == init[i];
        }
      }
    }
  }

  // ---------------------------------------------------------------------
  // The sleep between passes

  /**
   * The seconds to wait before the next pass: ten while a lecture is in
   * session, fifteen minutes when no start is left today, ten when the next
   * start is at most twenty minutes away, five minutes otherwise.
   */
  function SleepSeconds(inSession: bool, nextStart: Option<int>, nowUtc: int): (secs: int)
    ensures secs == 10 || secs == 300 || secs == 900
    ensures secs == 900 <==> !inSession && nextStart.None?
    ensures secs == 10 <==> inSession || (nextStart.Some? && nextStart.value - nowUtc <= 20 * 60 * 1_000_000)
  {
    if inSession then 10
    else if nextStart.None? then 900
    else if nextStart.value - nowUtc <= 20 * 60 * 1_000_000 then 10
    else 300
  }

  /** A sooner next start never makes the runner sleep longer. */
  lemma SleepSooner(inSession: bool, a: int, b: int, nowUtc: int)
    requires a <= b
    ensures SleepSeconds(inSession, Some(a), nowUtc) <= SleepSeconds(inSession, Some(b), nowUtc)
  {
  }

  /** The instant of today's start the runner waits for, from the minute the query returns. */
  function NextStartInstant(nowUtc: int, soonest: Option<Minute>): (r: Option<int>)
    ensures r.Some? <==> soonest.Some?
    ensures r.Some? ==> r.value == KstTodayAt(nowUtc, soonest.value) && KstNow(r.value).weekday == KstNow(nowUtc).weekday
  {
    if soonest.None? then None
    else
      var t := KstTodayAt(nowUtc, soonest.value);
      KstTodayWeekday(nowUtc, soonest.value);
      Some(t)
  }

  /** A minute of the Korean day falls on that day's weekday. */
  lemma KstTodayWeekday(nowUtc: int, m: Minute)
    ensures KstNow(KstTodayAt(nowUtc, m)).weekday == KstNow(nowUtc).weekday
    ensures KstNow(KstTodayAt(nowUtc, m)).micros == m * MicrosPerMinute
  {
    var q := KstDay(nowUtc);
    var t := KstTodayAt(nowUtc, m);
    assert t + KstOffset == q * MicrosPerDay + m * MicrosPerMinute;
    DivBetween(t + KstOffset, q);
  }
}
