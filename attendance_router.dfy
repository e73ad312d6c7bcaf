/**
 * The attendance endpoints: attending with a typed code, the requested
 * brute force over all 1000 codes with its busy flag, the record reported by
 * a worker, switching automatic attendance per lecture, and the listings
 * (attendance records, enabled courses, lectures with their weekly slots).
 *
 * What the attendance site answers while a browser or an HTTP session drives
 * it is a parameter of each operation; the requested instant is `nowUtc`,
 * in microseconds since the epoch.
 */
module AttendanceRouter {
  import opened Common
  import opened TimeOfDay
  import opened Models
  import opened AttendanceWindow
  import LectureService
  import Serializer

  /** The `{"status", "message"}` envelope; `ok` stands for status `"success"`. */
  datatype Reply = Reply(ok: bool, message: string)

  const NotClassTime := "현재 수업 시간이 아닙니다."
  const AlreadyToday := "이미 오늘 출석한 강의입니다."
  const NotAttending := "현재 출석 중이 아닙니다."

  /** `find_current_lecture(user)` at instant `nowUtc`, on the Korean wall clock. */
  function CurrentFor(enrolments: seq<Enrolment>, lectures: seq<Lecture>, schedules: seq<Schedule>,
                      userId: int, nowUtc: int): Option<Lecture>
  {
    LectureService.CurrentLecture(UserLectures(enrolments, lectures, userId), schedules, KstNow(nowUtc))
  }

  // ---------------------------------------------------------------------
  // GET /status
  // ---------------------------------------------------------------------

  datatype Status = Status(canAttend: bool, lectureName: Option<string>, message: string)

  function AttendanceStatus(current: Option<Lecture>): Status
  {
    match current
    case Some(l) => Status(true, Some(l.name), "현재 " + l.name + " 수업 시간입니다.")
    case None => Status(false, None, NotClassTime)
  }

  /** One can attend exactly when one of the user's lectures has a slot containing the wall clock. */
  lemma AttendanceStatusMeaning(enrolments: seq<Enrolment>, lectures: seq<Lecture>, schedules: seq<Schedule>,
                                userId: int, nowUtc: int)
    ensures var mine := UserLectures(enrolments, lectures, userId);
      AttendanceStatus(CurrentFor(enrolments, lectures, schedules, userId, nowUtc)).canAttend
      <==> exists i :: 0 <= i < |mine| && LectureService.InSession(mine[i], schedules, KstNow(nowUtc))
  {
    var mine := UserLectures(enrolments, lectures, userId);
    LectureService.CurrentLectureMeaning(mine, schedules, KstNow(nowUtc));
  }

  // ---------------------------------------------------------------------
  // POST /auto_attend
  // ---------------------------------------------------------------------

  /** Where the site leads the browser in `auto_attend`. */
  datatype FormOutcome =
    | FormClosed              // the status page does not redirect to the code form
    | CodeRefused             // submitting the code lands on the action page
    | CodeAccepted            // submitting the code lands back on the status page
    | Redirected              // any other page
    | BrowserError(error: string)

  /** A reply together with the attendance table it leaves behind. */
  datatype Attended = Attended(reply: Reply, attendance: seq<AttendanceLog>)

  /** `auto_attend` once the current lecture is known. */
  function AutoAttendResult(attendance: seq<AttendanceLog>, current: Option<Lecture>, userId: int,
                            authCode: Option<int>, outcome: FormOutcome, nowUtc: int): Attended
  {
    match current
    case None => Attended(Reply(false, NotClassTime), attendance)
    case Some(lec) =>
      if AttendedToday(attendance, userId, lec.id, nowUtc) then Attended(Reply(false, AlreadyToday), attendance)
      else match outcome
        case FormClosed => Attended(Reply(false, NotAttending), attendance)
        case CodeRefused => Attended(Reply(false, "인증코드가 잘못되었거나 출석 실패"), attendance)
        case Redirected => Attended(Reply(false, "출석 실패: 알 수 없는 리다이렉트 경로"), attendance)
        case BrowserError(e) => Attended(Reply(false, e), attendance)
        case CodeAccepted =>
          if AttendedToday(attendance, userId, lec.id, nowUtc) then Attended(Reply(false, "이미 출석한 강의입니다."), attendance)
          else Attended(Reply(true, "출석 인증 완료!"), attendance + [AttendanceLog(userId, lec.id, nowUtc, 0, authCode)])
  }

  method AutoAttend(db: Db, userId: int, authCode: Option<int>, outcome: FormOutcome, nowUtc: int) returns (reply: Reply)
    modifies db`attendance
    ensures Attended(reply, db.attendance) == AutoAttendResult(old(db.attendance),
      CurrentFor(db.enrolments, db.lectures, db.schedules, userId, nowUtc), userId, authCode, outcome, nowUtc)
  {
    var lecture := LectureService.FindCurrentLecture(UserLectures(db.enrolments, db.lectures, userId), db.schedules, KstNow(nowUtc));
    if lecture.None? {
      return Reply(false, NotClassTime);
    }
    var lec := lecture.value;
    if AttendedToday(db.attendance, userId, lec.id, nowUtc) {
      return Reply(false, AlreadyToday);
    }
    match outcome
    case FormClosed => reply := Reply(false, NotAttending);
    case CodeRefused => reply := Reply(false, "인증코드가 잘못되었거나 출석 실패");
    case Redirected => reply := Reply(false, "출석 실패: 알 수 없는 리다이렉트 경로");
    case BrowserError(e) => reply := Reply(false, e);
    case CodeAccepted =>
      if AttendedToday(db.attendance, userId, lec.id, nowUtc) {
        reply := Reply(false, "이미 출석한 강의입니다.");
      } else {
        db.attendance := db.attendance + [AttendanceLog(userId, lec.id, nowUtc, 0, authCode)];
        reply := Reply(true, "출석 인증 완료!");
      }
  }

  /**
   * Outside class time, or once the lecture has a record today, the reply
   * is fixed before any browser step: it is the same whatever the site
   * would answer, and nothing is recorded.
   */
  lemma AutoAttendGuards(attendance: seq<AttendanceLog>, current: Option<Lecture>, userId: int,
                         authCode: Option<int>, o1: FormOutcome, o2: FormOutcome, nowUtc: int)
    requires current.None? || AttendedToday(attendance, userId, current.value.id, nowUtc)
    ensures AutoAttendResult(attendance, current, userId, authCode, o1, nowUtc)
         == AutoAttendResult(attendance, current, userId, authCode, o2, nowUtc)
    ensures AutoAttendResult(attendance, current, userId, authCode, o1, nowUtc).attendance == attendance
    ensures AutoAttendResult(attendance, current, userId, authCode, o1, nowUtc).reply
         == Reply(false, if current.None? then NotClassTime else AlreadyToday)
  {
  }

  /**
   * A call records at most one row, and records one exactly when a lecture
   * is current, it has no record today and the site accepts the code; the
   * second check of the same day never refuses.
   */
  lemma AutoAttendRecords(attendance: seq<AttendanceLog>, current: Option<Lecture>, userId: int,
                          authCode: Option<int>, outcome: FormOutcome, nowUtc: int)
    ensures var r := AutoAttendResult(attendance, current, userId, authCode, outcome, nowUtc);
      r.reply.ok <==> current.Some? && !AttendedToday(attendance, userId, current.value.id, nowUtc) && outcome == CodeAccepted
    ensures var r := AutoAttendResult(attendance, current, userId, authCode, outcome, nowUtc);
      if r.reply.ok then r.attendance == attendance + [AttendanceLog(userId, current.value.id, nowUtc, 0, authCode)]
      else r.attendance == attendance
  {
  }

  /** A new record counts as attended for every instant of the same Korean day. */
  lemma RecordCountsToday(attendance: seq<AttendanceLog>, log: AttendanceLog, nowUtc: int)
    requires KstDay(log.timestamp) == KstDay(nowUtc)
    ensures AttendedToday(attendance + [log], log.userId, log.lectureId, nowUtc)
  {
    var a := attendance + [log];
    AttendedTodayMeaning(a, log.userId, log.lectureId, nowUtc);
    assert a[|attendance|] == log;
  }

  /**
   * After a successful attempt, every later attempt on the same Korean day
   * for the same lecture is refused as already attended, before the browser.
   */
  lemma AutoAttendOncePerDay(attendance: seq<AttendanceLog>, lec: Lecture, userId: int,
                             code1: Option<int>, code2: Option<int>, o2: FormOutcome, t1: int, t2: int)
    requires AutoAttendResult(attendance, Some(lec), userId, code1, CodeAccepted, t1).reply.ok
    requires KstDay(t1) == KstDay(t2)
    ensures var after := AutoAttendResult(attendance, Some(lec), userId, code1, CodeAccepted, t1).attendance;
      AutoAttendResult(after, Some(lec), userId, code2, o2, t2) == Attended(Reply(false, AlreadyToday), after)
  {
    RecordCountsToday(attendance, AttendanceLog(userId, lec.id, t1, 0, code1), t2);
  }

  // ---------------------------------------------------------------------
  // POST /bruteforce_attend
  // ---------------------------------------------------------------------

  /** Where the site leads the browser before the codes are tried. */
  datatype FormPage = PageClosed | PageOpen | PageError(error: string)

  /** What one posted code lands on: the status page, another page, or an exception. */
  datatype CodeAnswer = Accepted | Refused | PostFailed

  /** `list(range(n))`. */
  function CodeRange(n: nat): (r: seq<int>)
    ensures |r| == n && forall i :: 0 <= i < n ==> r[i] == i
  {
    seq(n, i requires 0 <= i < n => i)
  }

  /** What `random.shuffle(list(range(1000)))` may produce: a permutation of 0..999. */
  predicate IsCodeShuffle(codes: seq<int>)
  {
    multiset(codes) == multiset(CodeRange(1000))
  }

  /** The position of the first accepted code. */
  function FirstAccepted(codes: seq<int>, answer: int -> CodeAnswer): (r: Option<nat>)
    ensures r.Some? ==> (r.value < |codes| && answer(codes[r.value]) == Accepted
      && forall j :: 0 <= j < r.value ==> answer(codes[j]) != Accepted)
    ensures r.None? ==> forall j :: 0 <= j < |codes| ==> answer(codes[j]) != Accepted
  {
    if codes == [] then None
    else if answer(codes[0]) == Accepted then Some(0)
    else match FirstAccepted(codes[1..], answer)
      case None => None
      case Some(k) => Some(k + 1)
  }

  predicate CodesInRange(codes: seq<int>)
  {
    forall i :: 0 <= i < |codes| ==> 0 <= codes[i] < 1000
  }

  /** The authentication keys posted, in order, up to the first accepted one. */
  function SentKeys(codes: seq<int>, answer: int -> CodeAnswer): seq<string>
    requires CodesInRange(codes)
  {
    var n := match FirstAccepted(codes, answer) case Some(k) => k + 1 case None => |codes|;
    seq(n, k requires 0 <= k < n => Pad3(codes[k]))
  }

  /** The reply, the attendance table and the posted keys of one attempt over the codes. */
  datatype Attempt = Attempt(reply: Reply, attendance: seq<AttendanceLog>, sent: seq<string>)

  /** The part of `bruteforce_attend` inside its `try`, once the busy flag is set. */
  function BruteAttempt(attendance: seq<AttendanceLog>, userId: int, lec: Lecture, nowUtc: int,
                        page: FormPage, codes: seq<int>, answer: int -> CodeAnswer): Attempt
    requires CodesInRange(codes)
  {
    match page
    case PageClosed => Attempt(Reply(false, NotAttending), attendance, [])
    case PageError(e) => Attempt(Reply(false, e), attendance, [])
    case PageOpen =>
      var sent := SentKeys(codes, answer);
      match FirstAccepted(codes, answer)
      case None => Attempt(Reply(false, "브루트포스 출석 실패: 모든 코드 시도 실패"), attendance, sent)
      case Some(k) =>
        if AttendedToday(attendance, userId, lec.id, nowUtc) then
          Attempt(Reply(false, "이미 오늘 출석한 강의입니다 (경합)."), attendance, sent)
        else
          Attempt(Reply(true, "브루트포스 출석 성공! 코드: " + Pad3(codes[k])),
                  attendance + [AttendanceLog(userId, lec.id, nowUtc, 1, Some(codes[k]))], sent)
  }

  /** `user_lecture.select().where(user, lecture).fetchone()`. */
  function FirstRow(enrolments: seq<Enrolment>, userId: int, lectureId: int): (r: Option<nat>)
    ensures r.Some? ==> r.value < |enrolments| && enrolments[r.value].userId == userId && enrolments[r.value].lectureId == lectureId
    ensures r.None? ==> forall j :: 0 <= j < |enrolments| ==> !(enrolments[j].userId == userId && enrolments[j].lectureId == lectureId)
  {
    if enrolments == [] then None
    else if enrolments[0].userId == userId && enrolments[0].lectureId == lectureId then Some(0)
    else match FirstRow(enrolments[1..], userId, lectureId)
      case None => None
      case Some(k) => Some(k + 1)
  }

  datatype Brute = Brute(reply: Reply, attendance: seq<AttendanceLog>, enrolments: seq<Enrolment>, sent: seq<string>)

  /** Whether the attempt gets past the four refusals and sets the busy flag. */
  predicate BruteStarts(attendance: seq<AttendanceLog>, enrolments: seq<Enrolment>, current: Option<Lecture>,
                        userId: int, nowUtc: int)
  {
    current.Some? && !AttendedToday(attendance, userId, current.value.id, nowUtc)
    && FirstRow(enrolments, userId, current.value.id).Some?
    && !enrolments[FirstRow(enrolments, userId, current.value.id).value].inProgress
  }

  /** `bruteforce_attend` once the current lecture is known, with its `finally` block. */
  function BruteResult(attendance: seq<AttendanceLog>, enrolments: seq<Enrolment>, current: Option<Lecture>,
                       userId: int, nowUtc: int, page: FormPage, codes: seq<int>, answer: int -> CodeAnswer): Brute
    requires CodesInRange(codes)
  {
    match current
    case None => Brute(Reply(false, NotClassTime), attendance, enrolments, [])
    case Some(lec) =>
      if AttendedToday(attendance, userId, lec.id, nowUtc) then Brute(Reply(false, AlreadyToday), attendance, enrolments, [])
      else match FirstRow(enrolments, userId, lec.id)
        case None => Brute(Reply(false, "수강 정보가 없습니다. (user_lecture 관계 없음)"), attendance, enrolments, [])
        case Some(k) =>
          if enrolments[k].inProgress then Brute(Reply(false, "이미 브루트포스 출석이 진행 중입니다."), attendance, enrolments, [])
          else
            var a := BruteAttempt(attendance, userId, lec, nowUtc, page, codes, answer);
            Brute(a.reply, a.attendance,
                  SetInProgress(SetInProgress(enrolments, userId, lec.id, true), userId, lec.id, false), a.sent)
  }

  /** The loop over the shuffled codes: the position of the first accepted one, and the keys posted. */
  method TryCodes(codes: seq<int>, answer: int -> CodeAnswer) returns (hit: Option<nat>, sent: seq<string>)
    requires CodesInRange(codes)
    ensures hit == FirstAccepted(codes, answer) && sent == SentKeys(codes, answer)
  {
    sent := [];
    var i := 0;
    while i < |codes|
      invariant 0 <= i <= |codes|
      invariant forall j :: 0 <= j < i ==> answer(codes[j]) != Accepted
      invariant sent == seq(i, k requires 0 <= k < i => Pad3(codes[k]))
    {
      sent := sent + [Pad3(codes[i])];
      if answer(codes[i]) == Accepted {
        FirstAcceptedIs(codes, answer, i);
        assert sent == seq(i + 1, k requires 0 <= k < i + 1 => Pad3(codes[k]));
        return Some(i), sent;
      }
      i := i + 1;
    }
    FirstAcceptedIs(codes, answer, |codes|);
    hit := None;
  }

  /** `FirstAccepted` is the first position whose code is accepted, or none when there is none. */
  lemma FirstAcceptedIs(codes: seq<int>, answer: int -> CodeAnswer, i: nat)
    requires i <= |codes|
    requires forall j :: 0 <= j < i ==> answer(codes[j]) != Accepted
    requires i < |codes| ==> answer(codes[i]) == Accepted
    ensures FirstAccepted(codes, answer) == if i < |codes| then Some(i) else None
  {
    var r := FirstAccepted(codes, answer);
    if r.Some? {
      assert !(r.value < i) && !(i < r.value);
    }
  }

  /**
   * `bruteforce_attend`. `during` is the association table while the codes
   * are tried; afterwards the `finally` block has cleared the flag again.
   */
  method BruteForce(db: Db, userId: int, nowUtc: int, page: FormPage, codes: seq<int>, answer: int -> CodeAnswer)
    returns (reply: Reply, sent: seq<string>, ghost during: seq<Enrolment>)
    requires IsCodeShuffle(codes)
    modifies db`attendance, db`enrolments
    ensures var current := CurrentFor(old(db.enrolments), db.lectures, db.schedules, userId, nowUtc);
      CodesInRange(codes)
      && Brute(reply, db.attendance, db.enrolments, sent)
         == BruteResult(old(db.attendance), old(db.enrolments), current, userId, nowUtc, page, codes, answer)
      && during == if BruteStarts(old(db.attendance), old(db.enrolments), current, userId, nowUtc)
                   then SetInProgress(old(db.enrolments), userId, current.value.id, true) else old(db.enrolments)
  {
    ShuffleInRange(codes);
    during := db.enrolments;
    sent := [];
    var lecture := LectureService.FindCurrentLecture(UserLectures(db.enrolments, db.lectures, userId), db.schedules, KstNow(nowUtc));
    if lecture.None? {
      return Reply(false, NotClassTime), sent, during;
    }
    var lec := lecture.value;
    if AttendedToday(db.attendance, userId, lec.id, nowUtc) {
      return Reply(false, AlreadyToday), sent, during;
    }
    var row := FirstRow(db.enrolments, userId, lec.id);
    if row.None? {
      return Reply(false, "수강 정보가 없습니다. (user_lecture 관계 없음)"), sent, during;
    }
    if db.enrolments[row.value].inProgress {
      return Reply(false, "이미 브루트포스 출석이 진행 중입니다."), sent, during;
    }
    db.enrolments := SetInProgress(db.enrolments, userId, lec.id, true);
    during := db.enrolments;
    match page {
      case PageClosed =>
        reply := Reply(false, NotAttending);
      case PageError(e) =>
        reply := Reply(false, e);
      case PageOpen =>
        var hit;
        hit, sent := TryCodes(codes, answer);
        match hit {
          case None =>
            reply := Reply(false, "브루트포스 출석 실패: 모든 코드 시도 실패");
          case Some(k) =>
            if AttendedToday(db.attendance, userId, lec.id, nowUtc) {
              reply := Reply(false, "이미 오늘 출석한 강의입니다 (경합).");
            } else {
              db.attendance := db.attendance + [AttendanceLog(userId, lec.id, nowUtc, 1, Some(codes[k]))];
              reply := Reply(true, "브루트포스 출석 성공! 코드: " + Pad3(codes[k]));
            }
        }
    }
    // the `finally` block
    db.enrolments := SetInProgress(db.enrolments, userId, lec.id, false);
  }

  /** Every element of a shuffle is a code from 0 to 999, and every such code occurs. */
  lemma ShuffleInRange(codes: seq<int>)
    requires IsCodeShuffle(codes)
    ensures CodesInRange(codes)
    ensures forall c :: 0 <= c < 1000 ==> c in codes
  {
    var all := CodeRange(1000);
    forall i | 0 <= i < |codes| ensures 0 <= codes[i] < 1000 {
      assert codes[i] in multiset(codes);
      assert codes[i] in multiset(all);
    }
    forall c | 0 <= c < 1000 ensures c in codes {
      assert all[c] == c;
      assert c in multiset(all);
    }
  }

  /** 0..n-1 holds each value at most once. */
  lemma {:induction false} RangeOnce(n: nat, x: int)
    ensures multiset(CodeRange(n))[x] <= 1
  {
    if n > 0 {
      assert CodeRange(n) == CodeRange(n - 1) + [n - 1];
      RangeOnce(n - 1, x);
      if x == n - 1 {
        assert x !in CodeRange(n - 1);
        assert multiset(CodeRange(n - 1))[x] == 0;
      }
    }
  }

  /** No code occurs twice in a shuffle. */
  lemma ShuffleDistinct(codes: seq<int>, i: nat, j: nat)
    requires IsCodeShuffle(codes)
    requires i < j < |codes|
    ensures codes[i] != codes[j]
  {
    if codes[i] == codes[j] {
      var x := codes[i];
      assert codes == codes[..j] + [codes[j]] + codes[j + 1..];
      assert codes[..j][i] == x;
      assert multiset(codes[..j])[x] >= 1;
      assert multiset(codes)[x] >= 2;
      RangeOnce(1000, x);
      assert false;
    }
  }

  /**
   * Each posted key is three digits and names its code, no key is posted
   * twice, and when no code is accepted all 1000 keys from "000" to "999"
   * have been posted.
   */
  lemma SentKeysMeaning(codes: seq<int>, answer: int -> CodeAnswer)
    requires IsCodeShuffle(codes)
    ensures CodesInRange(codes)
    ensures var sent := SentKeys(codes, answer);
      forall k :: 0 <= k < |sent| ==> |sent[k]| == 3 && AllDigits(sent[k]) && DigitsValue(sent[k]) == codes[k]
    ensures var sent := SentKeys(codes, answer);
      forall a, b :: 0 <= a < b < |sent| ==> sent[a] != sent[b]
    ensures FirstAccepted(codes, answer).None? ==> forall c :: 0 <= c < 1000 ==> Pad3(c) in SentKeys(codes, answer)
  {
    ShuffleInRange(codes);
    var sent := SentKeys(codes, answer);
    forall a, b | 0 <= a < b < |sent| ensures sent[a] != sent[b] {
      ShuffleDistinct(codes, a, b);
    }
    if FirstAccepted(codes, answer).None? {
      forall c | 0 <= c < 1000 ensures Pad3(c) in sent {
        assert c in codes;
        var k :| 0 <= k < |codes| && codes[k] == c;
        assert sent[k] == Pad3(c);
      }
    }
  }

  /**
   * The four refusals leave both tables as they were and post nothing;
   * otherwise the pair's flag is false in every row of the pair afterwards,
   * other rows are untouched, and at most one brute-force record is added,
   * naming the accepted code that the success reply prints.
   */
  lemma BruteEffects(attendance: seq<AttendanceLog>, enrolments: seq<Enrolment>, current: Option<Lecture>,
                     userId: int, nowUtc: int, page: FormPage, codes: seq<int>, answer: int -> CodeAnswer)
    requires CodesInRange(codes)
    ensures var r := BruteResult(attendance, enrolments, current, userId, nowUtc, page, codes, answer);
      !BruteStarts(attendance, enrolments, current, userId, nowUtc) ==>
        r.attendance == attendance && r.enrolments == enrolments && r.sent == [] && !r.reply.ok
    ensures var r := BruteResult(attendance, enrolments, current, userId, nowUtc, page, codes, answer);
      BruteStarts(attendance, enrolments, current, userId, nowUtc) ==>
        r.enrolments == SetInProgress(enrolments, userId, current.value.id, false)
    ensures var r := BruteResult(attendance, enrolments, current, userId, nowUtc, page, codes, answer);
      r.reply.ok <==> BruteStarts(attendance, enrolments, current, userId, nowUtc) && page == PageOpen
                      && FirstAccepted(codes, answer).Some?
    ensures var r := BruteResult(attendance, enrolments, current, userId, nowUtc, page, codes, answer);
      if r.reply.ok then
        var c := codes[FirstAccepted(codes, answer).value];
        r.attendance == attendance + [AttendanceLog(userId, current.value.id, nowUtc, 1, Some(c))]
        && r.reply.message == "브루트포스 출석 성공! 코드: " + Pad3(c) && r.sent[|r.sent| - 1] == Pad3(c)
      else r.attendance == attendance
  {
    if BruteStarts(attendance, enrolments, current, userId, nowUtc) {
      var lec := current.value;
      var e1 := SetInProgress(enrolments, userId, lec.id, true);
      var e2 := SetInProgress(e1, userId, lec.id, false);
      assert e2 == SetInProgress(enrolments, userId, lec.id, false);
    }
  }

  /**
   * When the association has one row per pair, as its primary key demands,
   * a brute force leaves the association table exactly as it found it.
   */
  lemma BruteRestoresFlags(attendance: seq<AttendanceLog>, enrolments: seq<Enrolment>, current: Option<Lecture>,
                           userId: int, nowUtc: int, page: FormPage, codes: seq<int>, answer: int -> CodeAnswer)
    requires CodesInRange(codes)
    requires UniquePairs(enrolments)
    ensures BruteResult(attendance, enrolments, current, userId, nowUtc, page, codes, answer).enrolments == enrolments
  {
    BruteEffects(attendance, enrolments, current, userId, nowUtc, page, codes, answer);
    if BruteStarts(attendance, enrolments, current, userId, nowUtc) {
      var lecId := current.value.id;
      var k := FirstRow(enrolments, userId, lecId).value;
      var r := SetInProgress(enrolments, userId, lecId, false);
      forall j | 0 <= j < |enrolments| ensures r[j] == enrolments[j] {
        if enrolments[j].userId == userId && enrolments[j].lectureId == lecId {
          assert !(j < k) && !(k < j);
        }
      }
    }
  }

  // ---------------------------------------------------------------------
  // POST /report_attendance_success
  // ---------------------------------------------------------------------

  /** `query(Lecture).filter_by(plato_course_id=course).first()`. */
  function FindByCourse(lectures: seq<Lecture>, courseId: int): (r: Option<Lecture>)
    ensures r.Some? ==> r.value in lectures && r.value.platoCourseId == Some(courseId)
    ensures r.None? <==> forall l :: l in lectures ==> l.platoCourseId != Some(courseId)
  {
    if lectures == [] then None
    else if lectures[0].platoCourseId == Some(courseId) then Some(lectures[0])
    else FindByCourse(lectures[1..], courseId)
  }

  /** Python's truth value of an optional id: present and not zero. */
  predicate Given(x: Option<int>)
  {
    x.Some? && x.value != 0
  }

  function ReportResult(attendance: seq<AttendanceLog>, users: seq<User>, lectures: seq<Lecture>,
                        userId: Option<int>, courseId: Option<int>, authCode: Option<int>, nowUtc: int): Attended
  {
    if !Given(courseId) then Attended(Reply(false, "course_id는 필수입니다."), attendance)
    else if !Given(userId) then Attended(Reply(false, "user_id가 필요합니다."), attendance)
    else match (FindUser(users, userId.value), FindByCourse(lectures, courseId.value))
      case (Some(u), Some(l)) =>
        Attended(Reply(true, "출석 기록이 저장되었습니다."), attendance + [AttendanceLog(u.id, l.id, nowUtc, 2, authCode)])
      case _ => Attended(Reply(false, "유효하지 않은 사용자 또는 강의입니다."), attendance)
  }

  method ReportAttendanceSuccess(db: Db, userId: Option<int>, courseId: Option<int>, authCode: Option<int>, nowUtc: int)
    returns (reply: Reply)
    modifies db`attendance
    ensures Attended(reply, db.attendance) == ReportResult(old(db.attendance), db.users, db.lectures, userId, courseId, authCode, nowUtc)
  {
    if !Given(courseId) {
      return Reply(false, "course_id는 필수입니다.");
    }
    if !Given(userId) {
      return Reply(false, "user_id가 필요합니다.");
    }
    var user := FindUser(db.users, userId.value);
    var lecture := FindByCourse(db.lectures, courseId.value);
    if user.None? || lecture.None? {
      return Reply(false, "유효하지 않은 사용자 또는 강의입니다.");
    }
    db.attendance := db.attendance + [AttendanceLog(user.value.id, lecture.value.id, nowUtc, 2, authCode)];
    reply := Reply(true, "출석 기록이 저장되었습니다.");
  }

  /**
   * The course id is checked first, then the user id; the report is stored
   * exactly when both are given and name an existing user and a lecture
   * with that course id, and then it is one type-2 record for the first
   * such lecture.
   */
  lemma ReportMeaning(attendance: seq<AttendanceLog>, users: seq<User>, lectures: seq<Lecture>,
                      userId: Option<int>, courseId: Option<int>, authCode: Option<int>, nowUtc: int)
    ensures var r := ReportResult(attendance, users, lectures, userId, courseId, authCode, nowUtc);
      !Given(courseId) ==> r.reply.message == "course_id는 필수입니다."
    ensures var r := ReportResult(attendance, users, lectures, userId, courseId, authCode, nowUtc);
      r.reply.ok <==> (Given(courseId) && Given(userId)
        && (exists u :: u in users && u.id == userId.value)
        && (exists l :: l in lectures && l.platoCourseId == Some(courseId.value)))
    ensures var r := ReportResult(attendance, users, lectures, userId, courseId, authCode, nowUtc);
      if r.reply.ok then
        r.attendance == attendance + [AttendanceLog(userId.value, FindByCourse(lectures, courseId.value).value.id, nowUtc, 2, authCode)]
      else r.attendance == attendance
  {
  }

  // ---------------------------------------------------------------------
  // POST /set_auto_attendance
  // ---------------------------------------------------------------------

  /** The user's automatic attendance turned off in every row. */
  function AllOff(enrolments: seq<Enrolment>, userId: int): (r: seq<Enrolment>)
    ensures |r| == |enrolments|
  {
    seq(|enrolments|, j requires 0 <= j < |enrolments| =>
      if enrolments[j].userId == userId then enrolments[j].(autoEnabled := false) else enrolments[j])
  }

  /** The user's automatic attendance turned on in the rows of the listed lectures. */
  function OnFor(enrolments: seq<Enrolment>, userId: int, ids: seq<int>): (r: seq<Enrolment>)
    ensures |r| == |enrolments|
  {
    seq(|enrolments|, j requires 0 <= j < |enrolments| =>
      if enrolments[j].userId == userId && enrolments[j].lectureId in ids then enrolments[j].(autoEnabled := true)
      else enrolments[j])
  }

  /** The two updates of `set_auto_attendance`, the second skipped for an empty list. */
  function EnabledFor(enrolments: seq<Enrolment>, userId: int, ids: seq<int>): seq<Enrolment>
  {
    if ids != [] then OnFor(AllOff(enrolments, userId), userId, ids) else AllOff(enrolments, userId)
  }

  /**
   * `set_auto_attendance`: `ids` is `None` when the body's `lecture_ids`
   * is not a list (a missing one reads as the empty list).
   */
  method SetAutoAttendance(db: Db, userId: int, ids: Option<seq<int>>) returns (reply: Reply)
    modifies db`enrolments
    ensures ids.None? ==> reply == Reply(false, "강의 목록이 올바르지 않습니다.") && db.enrolments == old(db.enrolments)
    ensures ids.Some? ==> (reply == Reply(true, "자동 출석 강의가 정상적으로 저장되었습니다.")
      && db.enrolments == EnabledFor(old(db.enrolments), userId, ids.value))
  {
    if ids.None? {
      return Reply(false, "강의 목록이 올바르지 않습니다.");
    }
    db.enrolments := AllOff(db.enrolments, userId);
    if ids.value != [] {
      db.enrolments := OnFor(db.enrolments, userId, ids.value);
    }
    reply := Reply(true, "자동 출석 강의가 정상적으로 저장되었습니다.");
  }

  /**
   * Afterwards each of the user's rows is enabled exactly when its lecture
   * is listed (so an empty list turns every one off); the busy flag, the
   * other users' rows and the order of the table are unchanged.
   */
  lemma EnabledForMeaning(enrolments: seq<Enrolment>, userId: int, ids: seq<int>)
    ensures var r := EnabledFor(enrolments, userId, ids);
      |r| == |enrolments|
      && forall j :: 0 <= j < |r| ==>
        r[j] == if enrolments[j].userId == userId then enrolments[j].(autoEnabled := enrolments[j].lectureId in ids)
                else enrolments[j]
  {
    var r := EnabledFor(enrolments, userId, ids);
    var off := AllOff(enrolments, userId);
    forall j | 0 <= j < |r|
      ensures r[j] == if enrolments[j].userId == userId then enrolments[j].(autoEnabled := enrolments[j].lectureId in ids)
                      else enrolments[j]
    {
      assert off[j].userId == enrolments[j].userId && off[j].lectureId == enrolments[j].lectureId;
    }
  }

  /** Only the last list counts: setting twice is setting once to the second list. */
  lemma EnabledForLastWins(enrolments: seq<Enrolment>, userId: int, first: seq<int>, second: seq<int>)
    ensures EnabledFor(EnabledFor(enrolments, userId, first), userId, second) == EnabledFor(enrolments, userId, second)
  {
    var mid := EnabledFor(enrolments, userId, first);
    EnabledForMeaning(enrolments, userId, first);
    EnabledForMeaning(mid, userId, second);
    EnabledForMeaning(enrolments, userId, second);
  }

  // ---------------------------------------------------------------------
  // GET /current_auto_attend_courses, /auto_attendance_targets, /my_lectures
  // ---------------------------------------------------------------------

  /** The lecture ids of the user's enabled rows, in association order. */
  function EnabledIds(enrolments: seq<Enrolment>, userId: int): (r: seq<int>)
    ensures forall id :: id in r <==> exists j :: (0 <= j < |enrolments| && enrolments[j].userId == userId
      && enrolments[j].autoEnabled && enrolments[j].lectureId == id)
  {
    if enrolments == [] then []
    else
      var rest := EnabledIds(enrolments[1..], userId);
      assert forall j :: 1 <= j < |enrolments| ==> enrolments[1..][j - 1] == enrolments[j];
      if enrolments[0].userId == userId && enrolments[0].autoEnabled then [enrolments[0].lectureId] + rest else rest
  }

  /** `query(Lecture).filter(Lecture.id.in_(ids))`, in table order. */
  function LecturesIn(lectures: seq<Lecture>, ids: seq<int>): (r: seq<Lecture>)
    ensures forall l :: l in r <==> l in lectures && l.id in ids
    ensures |r| <= |lectures|
  {
    if lectures == [] then []
    else (if lectures[0].id in ids then [lectures[0]] else []) + LecturesIn(lectures[1..], ids)
  }

  /** The non-empty lecture names, in order. */
  function Names(lectures: seq<Lecture>): (r: seq<string>)
    ensures |r| <= |lectures|
    ensures forall n :: n in r <==> n != "" && exists l :: l in lectures && l.name == n
  {
    if lectures == [] then []
    else (if lectures[0].name != "" then [lectures[0].name] else []) + Names(lectures[1..])
  }

  datatype Course = Course(lectureId: int, name: string, code: string, section: string)

  datatype Courses = Courses(courses: seq<Course>, message: string)

  const NoCourses := "자동 출석이 설정된 강의가 없습니다. 아래 버튼으로 자동 출석을 등록해보세요!"

  function CoursesMessage(names: seq<string>): string
  {
    "자동 출석이 활성화된 강의가 " + NatToString(|names|) + "개 있습니다."
    + (if names != [] then " (" + Join(names, ", ") + ")" else "")
  }

  function CurrentCourses(enrolments: seq<Enrolment>, lectures: seq<Lecture>, userId: int): Courses
  {
    var ls := LecturesIn(lectures, EnabledIds(enrolments, userId));
    if ls == [] then Courses([], NoCourses)
    else Courses(seq(|ls|, i requires 0 <= i < |ls| => Course(ls[i].id, ls[i].name, ls[i].code, ls[i].section)),
                 CoursesMessage(Names(ls)))
  }

  /**
   * The courses are the lectures, in table order, that one of the user's
   * enabled rows names.
   */
  lemma CurrentCoursesMeaning(enrolments: seq<Enrolment>, lectures: seq<Lecture>, userId: int)
    ensures var r := CurrentCourses(enrolments, lectures, userId);
      var ls := LecturesIn(lectures, EnabledIds(enrolments, userId));
      |r.courses| == |ls|
      && (forall i :: 0 <= i < |ls| ==> r.courses[i].lectureId == ls[i].id && r.courses[i].name == ls[i].name)
      && (forall l :: l in ls <==> l in lectures && exists j :: (0 <= j < |enrolments| && enrolments[j].userId == userId
            && enrolments[j].autoEnabled && enrolments[j].lectureId == l.id))
  {
  }

  /** The "none" message comes exactly with an empty course list; otherwise the named ones are counted and listed. */
  lemma CurrentCoursesMessage(enrolments: seq<Enrolment>, lectures: seq<Lecture>, userId: int)
    ensures var r := CurrentCourses(enrolments, lectures, userId);
      (r.message == NoCourses <==> r.courses == [])
      && (r.courses != [] ==> r.message == CoursesMessage(Names(LecturesIn(lectures, EnabledIds(enrolments, userId)))))
  {
    var ls := LecturesIn(lectures, EnabledIds(enrolments, userId));
    if ls != [] {
      var names := Names(ls);
      var head := "자동 출석이 활성화된 강의가 ";
      var m := CoursesMessage(names);
      assert m == head + (NatToString(|names|) + "개 있습니다." + (if names != [] then " (" + Join(names, ", ") + ")" else ""));
      assert m[7] == head[7] == '활';
      assert NoCourses[7] == '설';
    }
  }

  /** The weekday label of `auto_attendance_targets` and `my_lectures`. */
  function WeekdayText(w: int): string
  {
    if 0 <= w < 7 then Serializer.Weekdays[w] else IntToString(w)
  }

  /**
   * In range the guarded label is the weekday name the unguarded
   * `WEEKDAYS[w]` gives; out of range it is the number, which is no weekday
   * name (while `WEEKDAYS[w]` would count from the end or fail).
   */
  lemma WeekdayTextMeaning(w: int)
    ensures 0 <= w < 7 ==> Serializer.WeekdayLabel(w) == Some(WeekdayText(w))
    ensures !(0 <= w < 7) ==> WeekdayText(w) !in Serializer.Weekdays
  {
    if !(0 <= w < 7) {
      var s := WeekdayText(w);
      assert s[0] == '-' || IsDigit(s[0]);
      forall k | 0 <= k < 7 ensures Serializer.Weekdays[k] != s {
        assert |Serializer.Weekdays[k]| == 1 && !IsDigit(Serializer.Weekdays[k][0]) && Serializer.Weekdays[k][0] != '-';
      }
    }
  }

  datatype SlotRow = SlotRow(weekday: string, start: string, end: string, location: Option<string>)

  datatype LectureRow = LectureRow(lectureId: int, platoCourseId: Option<int>, name: string, code: string,
                                   section: string, slots: seq<SlotRow>)

  function SlotRowOf(s: Schedule): SlotRow
  {
    SlotRow(WeekdayText(s.weekday), FormatHM(s.start), FormatHM(s.end), s.location)
  }

  /**
   * `row` is the listing entry of `l`: its id, PLATO course id, name, code
   * and section, and one slot per schedule of the lecture, in table order.
   */
  predicate Listed(l: Lecture, schedules: seq<Schedule>, row: LectureRow)
  {
    var own := LectureSchedules(schedules, l.id);
    row.lectureId == l.id && row.platoCourseId == l.platoCourseId && row.name == l.name
    && row.code == l.code && row.section == l.section
    && |row.slots| == |own| && forall k :: 0 <= k < |own| ==> row.slots[k] == SlotRowOf(own[k])
  }

  /** The loop body building one lecture's entry with its slots. */
  method LectureRowOf(l: Lecture, schedules: seq<Schedule>) returns (row: LectureRow)
    ensures Listed(l, schedules, row)
  {
    var own := LectureSchedules(schedules, l.id);
    var slots := [];
    var k := 0;
    while k < |own|
      invariant 0 <= k <= |own|
      invariant |slots| == k && forall j :: 0 <= j < k ==> slots[j] == SlotRowOf(own[j])
    {
      slots := slots + [SlotRowOf(own[k])];
      k := k + 1;
    }
    row := LectureRow(l.id, l.platoCourseId, l.name, l.code, l.section, slots);
  }

  /** The listing loop shared by `auto_attendance_targets` and `my_lectures`: one entry per lecture, in order. */
  method ListLectures(lectures: seq<Lecture>, schedules: seq<Schedule>) returns (rows: seq<LectureRow>)
    ensures |rows| == |lectures| && forall i :: 0 <= i < |lectures| ==> Listed(lectures[i], schedules, rows[i])
  {
    rows := [];
    var i := 0;
    while i < |lectures|
      invariant 0 <= i <= |lectures| && |rows| == i
      invariant forall j :: 0 <= j < i ==> Listed(lectures[j], schedules, rows[j])
    {
      var row := LectureRowOf(lectures[i], schedules);
      rows := rows + [row];
      i := i + 1;
    }
  }

  /** A listed slot's times read back as the stored ones with `%H:%M`. */
  lemma SlotRowTimes(s: Schedule)
    ensures ParseHM(SlotRowOf(s).start) == Some(s.start) && ParseHM(SlotRowOf(s).end) == Some(s.end)
  {
    ParseFormat(s.start);
    ParseFormat(s.end);
  }

  /** `auto_attendance_targets`: the lectures of the user's enabled rows, in table order, with their slots. */
  method AutoAttendanceTargets(db: Db, userId: int) returns (rows: seq<LectureRow>)
    ensures var ls := LecturesIn(db.lectures, EnabledIds(db.enrolments, userId));
      |rows| == |ls| && forall i :: 0 <= i < |ls| ==> Listed(ls[i], db.schedules, rows[i])
  {
    rows := ListLectures(LecturesIn(db.lectures, EnabledIds(db.enrolments, userId)), db.schedules);
  }

  // ---------------------------------------------------------------------
  // GET /logs
  // ---------------------------------------------------------------------

  /** The user's records, in table order. */
  function UserLogs(attendance: seq<AttendanceLog>, userId: int): (r: seq<AttendanceLog>)
    ensures multiset(r) <= multiset(attendance)
    ensures forall x :: x in r <==> x in attendance && x.userId == userId
  {
    if attendance == [] then []
    else
      var rest := UserLogs(attendance[1..], userId);
      assert attendance == [attendance[0]] + attendance[1..];
      if attendance[0].userId == userId then [attendance[0]] + rest else rest
  }

  predicate Descending(s: seq<AttendanceLog>)
  {
    forall i, j :: 0 <= i < j < |s| ==> s[i].timestamp >= s[j].timestamp
  }

  /** Insertion of one record into a list ordered by descending timestamp. */
  function Insert(x: AttendanceLog, s: seq<AttendanceLog>): (r: seq<AttendanceLog>)
    ensures multiset(r) == multiset(s) + multiset{x}
  {
    if s == [] || x.timestamp >= s[0].timestamp then [x] + s
    else
      assert s == [s[0]] + s[1..];
      [s[0]] + Insert(x, s[1..])
  }

  /** Inserting into a descending list keeps it descending. */
  lemma {:induction false} InsertDescending(x: AttendanceLog, s: seq<AttendanceLog>)
    requires Descending(s)
    ensures Descending(Insert(x, s))
  {
    assert Descending(s) ==> forall j :: 0 <= j < |s| ==> s[0].timestamp >= s[j].timestamp;
    if s != [] && x.timestamp < s[0].timestamp {
      var rest := Insert(x, s[1..]);
      InsertDescending(x, s[1..]);
      InsertBelow(x, s[1..], s[0].timestamp);
      var r := [s[0]] + rest;
      forall i, j | 0 <= i < j < |r| ensures r[i].timestamp >= r[j].timestamp {
        if i > 0 {
          assert r[i] == rest[i - 1] && r[j] == rest[j - 1];
        }
      }
    }
  }

  /** Inserting a record no later than a bound into records no later than it keeps every record below the bound. */
  lemma InsertBelow(x: AttendanceLog, s: seq<AttendanceLog>, t: int)
    requires x.timestamp <= t && forall j :: 0 <= j < |s| ==> s[j].timestamp <= t
    ensures forall j :: 0 <= j < |Insert(x, s)| ==> Insert(x, s)[j].timestamp <= t
  {
    var r := Insert(x, s);
    forall j | 0 <= j < |r| ensures r[j].timestamp <= t {
      var y := r[j];
      assert y in multiset(r);
      if y != x {
        assert y in multiset(s);
        var m :| 0 <= m < |s| && s[m] == y;
      }
    }
  }

  /** `order_by(Attendance.timestamp.desc())`, as an insertion sort. */
  function SortDesc(s: seq<AttendanceLog>): (r: seq<AttendanceLog>)
    ensures multiset(r) == multiset(s)
  {
    if s == [] then []
    else
      assert s == [s[0]] + s[1..];
      Insert(s[0], SortDesc(s[1..]))
  }

  /** The sorted records are in descending timestamp order. */
  lemma {:induction false} SortDescDescending(s: seq<AttendanceLog>)
    ensures Descending(SortDesc(s))
  {
    if s != [] {
      SortDescDescending(s[1..]);
      InsertDescending(s[0], SortDesc(s[1..]));
    }
  }

  datatype LogEntry = LogEntry(lectureId: int, lectureName: Option<string>, timestamp: int, kind: int, authCode: Option<int>)

  datatype Logs = Logs(count: nat, entries: seq<LogEntry>)

  function EntryOf(log: AttendanceLog, lectures: seq<Lecture>): LogEntry
  {
    LogEntry(log.lectureId, match FindLecture(lectures, log.lectureId) case Some(l) => Some(l.name) case None => None,
             log.timestamp, log.kind, log.authCode)
  }

  /** The loop of `get_attendance_logs` over the ordered records. */
  method EntriesOf(ordered: seq<AttendanceLog>, lectures: seq<Lecture>) returns (result: seq<LogEntry>)
    ensures |result| == |ordered| && forall i :: 0 <= i < |ordered| ==> result[i] == EntryOf(ordered[i], lectures)
  {
    result := [];
    var i := 0;
    while i < |ordered|
      invariant 0 <= i <= |ordered| && |result| == i
      invariant forall j :: 0 <= j < i ==> result[j] == EntryOf(ordered[j], lectures)
    {
      result := result + [EntryOf(ordered[i], lectures)];
      i := i + 1;
    }
  }

  /** `get_attendance_logs`: the user's records, newest first, each with its lecture's name. */
  method AttendanceLogs(db: Db, userId: int) returns (r: Logs)
    ensures var ordered := SortDesc(UserLogs(db.attendance, userId));
      r.count == |r.entries| && |r.entries| == |ordered|
      && forall i :: 0 <= i < |ordered| ==> r.entries[i] == EntryOf(ordered[i], db.lectures)
  {
    var result := EntriesOf(SortDesc(UserLogs(db.attendance, userId)), db.lectures);
    r := Logs(|result|, result);
  }

  /**
   * The listed records are exactly the user's, each once, newest first; an
   * entry names its lecture exactly when that lecture exists.
   */
  lemma LogsMeaning(attendance: seq<AttendanceLog>, lectures: seq<Lecture>, userId: int)
    ensures var ordered := SortDesc(UserLogs(attendance, userId));
      multiset(ordered) == multiset(UserLogs(attendance, userId))
      && (forall x :: x in ordered <==> x in attendance && x.userId == userId)
      && (forall i, j :: 0 <= i < j < |ordered| ==> EntryOf(ordered[i], lectures).timestamp >= EntryOf(ordered[j], lectures).timestamp)
      && (forall i :: 0 <= i < |ordered| ==>
            (EntryOf(ordered[i], lectures).lectureName.Some? <==> exists l :: l in lectures && l.id == ordered[i].lectureId))
  {
    var mine := UserLogs(attendance, userId);
    var ordered := SortDesc(mine);
    SortDescDescending(mine);
    forall x ensures x in ordered <==> x in mine {
      assert x in ordered <==> x in multiset(ordered);
      assert x in mine <==> x in multiset(mine);
    }
  }
}
