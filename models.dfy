/**
 * The persistent records of the portal and the database that holds them.
 * Rows that the code only creates or rewrites through table-level updates
 * are values in the sequence fields of `Db`, kept in insertion order (the
 * order in which an unordered query returns them); users are objects whose
 * fields the request handlers assign in place.
 */
module Models {
  import opened Common
  import opened TimeOfDay

  datatype Lecture = Lecture(
    id: int, name: string, code: string, section: string, fullName: string, platoCourseId: Option<int>)

  /** A weekly slot of a lecture; `locationId` is the link to a `Location` row. */
  datatype Schedule = Schedule(
    lectureId: int, weekday: int, start: Minute, end: Minute, duration: int,
    location: Option<string>, locationId: Option<int>)

  /** A room; the pair (building code, room number) is unique in the table. */
  datatype Location = Location(
    id: int, buildingCode: Option<string>, roomNumber: Option<string>,
    buildingName: Option<string>, fullLabel: Option<string>)

  /** A row of the user-lecture association with its two runner flags. */
  datatype Enrolment = Enrolment(userId: int, lectureId: int, autoEnabled: bool, inProgress: bool)

  /** An attendance record: `kind` 0 is automatic, 1 a requested brute force, 2 an automatic brute force. */
  datatype AttendanceLog = AttendanceLog(userId: int, lectureId: int, timestamp: int, kind: int, authCode: Option<int>)

  datatype ProKey = ProKey(key: string, isUsed: bool, usedBy: Option<int>, usedAt: Option<int>)

  /**
   * A stored student password. The cipher is a tag around the plaintext:
   * decrypting what was encrypted gives the plaintext back, and nothing else
   * about the cipher is used.
   */
  datatype Secret = Encrypted(plain: string)

  /** The configured special administrator account, either part possibly unset. */
  datatype AdminAccount = AdminAccount(studentId: Option<string>, password: Option<string>)

  /** Whether a profile with this student id and password is the configured administrator. */
  predicate IsSpecialAdmin(studentId: Option<string>, password: Option<string>, admin: AdminAccount)
  {
    Truthy(admin.studentId) && Truthy(admin.password)
    && studentId == admin.studentId && password == admin.password
  }

  class User {
    const id: int
    const firebaseUid: Option<string>
    var name: string
    var studentId: Option<string>
    var passwordEnc: Option<Secret>
    var isPro: bool
    var isAdmin: bool

    /** A new account: no student id, no password, neither Pro nor administrator. */
    constructor (id: int, firebaseUid: Option<string>, name: string)
      ensures this.id == id && this.firebaseUid == firebaseUid && this.name == name
      ensures studentId == None && passwordEnc == None && !isPro && !isAdmin
    {
      this.id := id;
      this.firebaseUid := firebaseUid;
      this.name := name;
      studentId := None;
      passwordEnc := None;
      isPro := false;
      isAdmin := false;
    }

    /**
     * Grants the administrator flag when both configured values are set and
     * match this user's student id and the given plaintext password; never
     * clears it and touches nothing else.
     */
    method SetAdminIfSpecial(decrypted: Option<string>, admin: AdminAccount)
      modifies this`isAdmin
      ensures isAdmin == (old(isAdmin) || IsSpecialAdmin(studentId, decrypted, admin))
    {
      if Truthy(admin.studentId) && Truthy(admin.password) {
        if studentId == admin.studentId && decrypted == admin.password {
          isAdmin := true;
        }
      }
    }
  }

  class Db {
    var users: seq<User>
    var lectures: seq<Lecture>
    var schedules: seq<Schedule>
    var locations: seq<Location>
    var enrolments: seq<Enrolment>
    var attendance: seq<AttendanceLog>
    var proKeys: seq<ProKey>

    constructor ()
      ensures users == [] && lectures == [] && schedules == [] && locations == []
      ensures enrolments == [] && attendance == [] && proKeys == []
    {
      users := [];
      lectures := [];
      schedules := [];
      locations := [];
      enrolments := [];
      attendance := [];
      proKeys := [];
    }

    /** Primary keys and unique columns. */
    ghost predicate Valid()
      reads this
    {
      (forall i, j :: 0 <= i < j < |users| ==> users[i].id != users[j].id)
      && (forall i, j :: 0 <= i < j < |lectures| ==> lectures[i].id != lectures[j].id)
      && (forall i, j :: 0 <= i < j < |locations| ==> locations[i].id != locations[j].id)
      && (forall i, j :: 0 <= i < j < |proKeys| ==> proKeys[i].key != proKeys[j].key)
      && UniquePairs(enrolments)
    }
  }

  /** One association row per (user, lecture) pair: the primary key of `user_lecture`. */
  predicate UniquePairs(enrolments: seq<Enrolment>)
  {
    forall i, j :: 0 <= i < j < |enrolments| ==>
      !(enrolments[i].userId == enrolments[j].userId && enrolments[i].lectureId == enrolments[j].lectureId)
  }

  /** `query(User).filter_by(id=id).first()`. */
  function FindUser(users: seq<User>, id: int): (r: Option<User>)
    ensures r.Some? ==> r.value in users && r.value.id == id
    ensures r.None? <==> forall u :: u in users ==> u.id != id
  {
    if users == [] then None
    else if users[0].id == id then Some(users[0])
    else FindUser(users[1..], id)
  }

  /** `query(Lecture).filter_by(id=id).first()`. */
  function FindLecture(lectures: seq<Lecture>, id: int): (r: Option<Lecture>)
    ensures r.Some? ==> r.value in lectures && r.value.id == id
    ensures r.None? <==> forall l :: l in lectures ==> l.id != id
  {
    if lectures == [] then None
    else if lectures[0].id == id then Some(lectures[0])
    else FindLecture(lectures[1..], id)
  }

  /** The lectures a user is enrolled in (`user.lectures`), in association order. */
  function UserLectures(enrolments: seq<Enrolment>, lectures: seq<Lecture>, userId: int): (r: seq<Lecture>)
    ensures forall l :: l in r ==> l in lectures
    ensures forall l :: l in r ==> exists e :: e in enrolments && e.userId == userId && e.lectureId == l.id
  {
    if enrolments == [] then []
    else
      var rest := UserLectures(enrolments[1..], lectures, userId);
      var e := enrolments[0];
      if e.userId == userId && FindLecture(lectures, e.lectureId).Some? then
        [FindLecture(lectures, e.lectureId).value] + rest
      else
        rest
  }

  /** The schedules of one lecture (`lecture.schedules`), in table order. */
  function LectureSchedules(schedules: seq<Schedule>, lectureId: int): (r: seq<Schedule>)
    ensures forall s :: s in r <==> s in schedules && s.lectureId == lectureId
  {
    if schedules == [] then []
    else
      var rest := LectureSchedules(schedules[1..], lectureId);
      if schedules[0].lectureId == lectureId then [schedules[0]] + rest else rest
  }

  /** One more than the largest id in use: the id the database gives the next row. */
  function NextId(ids: seq<int>): (n: int)
    ensures n >= 1 && forall i :: 0 <= i < |ids| ==> ids[i] < n
  {
    if ids == [] then 1
    else
      var m := NextId(ids[1..]);
      assert forall i :: 1 <= i < |ids| ==> ids[i] == ids[1..][i - 1];
      if ids[0] < m then m else ids[0] + 1
  }

  function LectureIds(lectures: seq<Lecture>): (r: seq<int>)
    ensures |r| == |lectures| && forall i :: 0 <= i < |r| ==> r[i] == lectures[i].id
  {
    seq(|lectures|, i requires 0 <= i < |lectures| => lectures[i].id)
  }

  function UserIds(users: seq<User>): (r: seq<int>)
    ensures |r| == |users| && forall i :: 0 <= i < |r| ==> r[i] == users[i].id
  {
    seq(|users|, i requires 0 <= i < |users| => users[i].id)
  }

  function LocationIds(locations: seq<Location>): (r: seq<int>)
    ensures |r| == |locations| && forall i :: 0 <= i < |r| ==> r[i] == locations[i].id
  {
    seq(|locations|, i requires 0 <= i < |locations| => locations[i].id)
  }

  /** `update(user_lecture).where(user, lecture).values(attendance_in_progress=value)`. */
  function SetInProgress(enrolments: seq<Enrolment>, userId: int, lectureId: int, value: bool): (r: seq<Enrolment>)
    ensures |r| == |enrolments|
    ensures forall j :: 0 <= j < |r| ==> r[j] == if enrolments[j].userId == userId && enrolments[j].lectureId == lectureId
      then enrolments[j].(inProgress := value) else enrolments[j]
  {
    seq(|enrolments|, j requires 0 <= j < |enrolments| =>
      if enrolments[j].userId == userId && enrolments[j].lectureId == lectureId then enrolments[j].(inProgress := value)
      else enrolments[j])
  }
}
