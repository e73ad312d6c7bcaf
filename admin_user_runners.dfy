/**
 * The administrator's auto-attendance page for one user: loading that
 * user's lectures and active targets, toggling lectures, the guard that a
 * saved selection must include a scheduled lecture, the all-off button and
 * the attendance-log lookup.
 */
module AdminUserRunners {
  import opened Common
  import opened ClientAuth
  import opened LectureView
  import opened Selection

  const LookupFailed := "사용자 정보 조회 실패"
  const SaveFailed := "자동 출석 강의 저장 실패"
  const Saved := "자동 출석 강의가 저장되었습니다."
  const NeedSchedule := "시간표 정보가 있는 강의를 1개 이상 선택해야 합니다."
  const LogLookupFailed := "출석 기록 조회 실패"

  /** `lectures.findIndex(l => l.lecture_id === id)`, as an option. */
  function FindIndex(lectures: seq<Lecture>, id: int): (r: Option<nat>)
    ensures r.None? <==> forall i :: 0 <= i < |lectures| ==> lectures[i].lectureId != id
    ensures r.Some? ==> r.value < |lectures| && lectures[r.value].lectureId == id
                        && forall j :: 0 <= j < r.value ==> lectures[j].lectureId != id
  {
    if lectures == [] then None
    else if lectures[0].lectureId == id then Some(0)
    else
      var rest := FindIndex(lectures[1..], id);
      assert forall i :: 1 <= i < |lectures| ==> lectures[i] == lectures[1..][i - 1];
      if rest.None? then None else Some(rest.value + 1)
  }

  /** `lectures.find(l => l.lecture_id === id)`: the first lecture with that id. */
  function Find(lectures: seq<Lecture>, id: int): Option<Lecture>
  {
    var k := FindIndex(lectures, id);
    if k.None? then None else Some(lectures[k.value])
  }

  /** The condition inside `selected.some(...)`: the id's first lecture has schedules. */
  predicate Scheduled(lectures: seq<Lecture>, id: int)
  {
    var lec := Find(lectures, id);
    lec.Some? && HasSchedules(lec.value)
  }

  /** `selected.some(...)`: some selected id names a lecture with schedules. */
  function AnyScheduled(lectures: seq<Lecture>, selected: seq<int>): (r: bool)
    ensures r <==> exists i :: 0 <= i < |selected| && Scheduled(lectures, selected[i])
  {
    if selected == [] then false
    else if Scheduled(lectures, selected[0]) then true
    else
      var r := AnyScheduled(lectures, selected[1..]);
      assert forall i :: 1 <= i < |selected| ==> selected[i] == selected[1..][i - 1];
      r
  }

  /**
   * An empty selection, and any selection from lectures without schedules,
   * is refused; a selection that contains the id of a scheduled lecture
   * listed before any other lecture with that id is accepted.
   */
  lemma GuardMeaning(lectures: seq<Lecture>, selected: seq<int>)
    ensures selected == [] ==> !AnyScheduled(lectures, selected)
    ensures (forall i :: 0 <= i < |lectures| ==> !HasSchedules(lectures[i])) ==> !AnyScheduled(lectures, selected)
    ensures forall i :: 0 <= i < |lectures| && HasSchedules(lectures[i]) && lectures[i].lectureId in selected
                        && (forall j :: 0 <= j < i ==> lectures[j].lectureId != lectures[i].lectureId)
                        ==> AnyScheduled(lectures, selected)
  {
    forall i | 0 <= i < |lectures| && HasSchedules(lectures[i]) && lectures[i].lectureId in selected
               && (forall j :: 0 <= j < i ==> lectures[j].lectureId != lectures[i].lectureId)
      ensures AnyScheduled(lectures, selected)
    {
      var id := lectures[i].lectureId;
      assert FindIndex(lectures, id) == Some(i);
      var s :| 0 <= s < |selected| && selected[s] == id;
      assert Scheduled(lectures, selected[s]);
    }
  }

  /** The answer of `enrolled_lectures`. */
  datatype EnrolledReply = EnrolledReply(status: string, lectures: Option<seq<Lecture>>)

  /** The answer of `auto_attendance_targets`, already mapped to its lecture ids. */
  datatype TargetsReply = TargetsReply(lectureIds: Option<seq<int>>)

  /** The answer of a user's `attendances`; rows are kept as the server sent them. */
  datatype LogsReply = LogsReply(status: string, attendances: Option<seq<string>>, count: string)

  /** What `fetchUserData` leaves: the lectures, the selection and the message. */
  datatype Loaded = Loaded(enrolled: seq<Lecture>, selected: seq<int>, msg: string)

  /**
   * `fetchUserData`: everything cleared, then the lectures when that answer
   * is a success, then the active targets as the selection; any failure
   * (including a `null` answer, whose fields cannot be read) sets the
   * lookup error.
   */
  function Refresh(lecRes: Fetched<EnrolledReply>, autoRes: Fetched<TargetsReply>): Loaded
  {
    if lecRes.Threw? || lecRes.json.None? || lecRes.json.value.status != "success" then Loaded([], [], LookupFailed)
    else
      var enrolled := if lecRes.json.value.lectures.Some? then lecRes.json.value.lectures.value else [];
      if autoRes.Threw? || autoRes.json.None? then Loaded(enrolled, [], LookupFailed)
      else Loaded(enrolled, if autoRes.json.value.lectureIds.Some? then autoRes.json.value.lectureIds.value else [], "")
  }

  /** The message is empty exactly when both lookups succeed; a failed first lookup leaves nothing loaded. */
  lemma RefreshMeaning(lecRes: Fetched<EnrolledReply>, autoRes: Fetched<TargetsReply>)
    ensures var l := Refresh(lecRes, autoRes);
      var lecOk := lecRes.Returned? && lecRes.json.Some? && lecRes.json.value.status == "success";
      (l.msg == "" <==> lecOk && autoRes.Returned? && autoRes.json.Some?)
      && (l.msg != "" ==> l.msg == LookupFailed && l.selected == [])
      && (!lecOk ==> l.enrolled == [])
  {
  }

  /** Whether the save request got an answer whose `message` can be read. */
  predicate Answered(reply: Fetched<Envelope>)
  {
    reply.Returned? && reply.json.Some?
  }

  /** `res.message || '자동 출석 강의가 저장되었습니다.'`. */
  function SaveText(e: Envelope): (r: string)
    ensures r != ""
  {
    if Truthy(e.message) then e.message.value else Saved
  }

  /**
   * The message `handleSave` leaves as written: the save message is set and
   * then at once cleared by the refresh, which leaves its own message.
   */
  function SaveMessageAsWritten(reply: Fetched<Envelope>, lecRes: Fetched<EnrolledReply>, autoRes: Fetched<TargetsReply>): string
  {
    if Answered(reply) then Refresh(lecRes, autoRes).msg else SaveFailed
  }

  /** The message evidently meant: the save message, shown once the refresh is done. */
  function SaveMessage(reply: Fetched<Envelope>): string
  {
    if Answered(reply) then SaveText(reply.json.value) else SaveFailed
  }

  /** As written, an answered save followed by a successful refresh shows no message at all. */
  lemma SaveMessageLost(reply: Fetched<Envelope>, lecRes: Fetched<EnrolledReply>, autoRes: Fetched<TargetsReply>)
    requires Answered(reply)
    requires lecRes == Returned(Some(EnrolledReply("success", None))) && autoRes == Returned(Some(TargetsReply(None)))
    ensures SaveMessageAsWritten(reply, lecRes, autoRes) == ""
    ensures SaveMessage(reply) != SaveMessageAsWritten(reply, lecRes, autoRes)
  {
  }

  /** With the message set after the refresh, an answered save always shows the server's message or the default. */
  lemma SaveMessageShown(reply: Fetched<Envelope>)
    ensures Answered(reply) ==> SaveMessage(reply) != ""
    ensures Answered(reply) && Truthy(reply.json.value.message) ==> SaveMessage(reply) == reply.json.value.message.value
    ensures Answered(reply) && !Truthy(reply.json.value.message) ==> SaveMessage(reply) == Saved
    ensures !Answered(reply) ==> SaveMessage(reply) == SaveFailed
  {
  }

  /** The page's state for the chosen user. */
  class Runners {
    var userId: string
    var enrolled: seq<Lecture>
    var selected: seq<int>
    var loading: bool
    var fetching: bool
    var msg: string
    var attendances: seq<string>
    var attLoading: bool
    var attMsg: string

    constructor ()
      ensures userId == "" && enrolled == [] && selected == [] && !loading && !fetching && msg == ""
      ensures attendances == [] && !attLoading && attMsg == ""
    {
      userId, enrolled, selected, loading, fetching, msg := "", [], [], false, false, "";
      attendances, attLoading, attMsg := [], false, "";
    }

    /** `handleCheck`: the clicked id toggled in the selection. */
    method HandleCheck(id: int)
      modifies this`selected
      ensures selected == Toggle(old(selected), id)
    {
      if id in selected {
        selected := Without(selected, id);
      } else {
        selected := selected + [id];
      }
    }

    /** `fetchUserData`, made of the two answers it awaits. */
    method FetchUserData(lecRes: Fetched<EnrolledReply>, autoRes: Fetched<TargetsReply>)
      modifies this`fetching, this`msg, this`enrolled, this`selected
      ensures Loaded(enrolled, selected, msg) == Refresh(lecRes, autoRes) && !fetching
    {
      fetching := true;
      msg, enrolled, selected := "", [], [];
      if lecRes.Threw? || lecRes.json.None? || lecRes.json.value.status != "success" {
        msg := LookupFailed;
      } else {
        enrolled := if lecRes.json.value.lectures.Some? then lecRes.json.value.lectures.value else [];
        if autoRes.Threw? || autoRes.json.None? {
          msg := LookupFailed;
        } else {
          selected := if autoRes.json.value.lectureIds.Some? then autoRes.json.value.lectureIds.value else [];
        }
      }
      fetching := false;
    }

    /**
     * `handleSave(ids)`: an answered save reloads the user's data; the
     * message is the save's own, set after the reload (see `SaveMessage`).
     */
    method HandleSave(ids: seq<int>, reply: Fetched<Envelope>, lecRes: Fetched<EnrolledReply>, autoRes: Fetched<TargetsReply>)
      modifies this`loading, this`fetching, this`msg, this`enrolled, this`selected
      ensures msg == SaveMessage(reply) && !loading
      ensures Answered(reply) ==> enrolled == Refresh(lecRes, autoRes).enrolled && selected == Refresh(lecRes, autoRes).selected
      ensures !Answered(reply) ==> enrolled == old(enrolled) && selected == old(selected) && fetching == old(fetching)
    {
      loading := true;
      msg := "";
      if !Answered(reply) {
        msg := SaveFailed;
      } else {
        FetchUserData(lecRes, autoRes);
        msg := SaveText(reply.json.value);
      }
      loading := false;
    }

    /** The form's submit: refused with a message unless some selected lecture has schedules; else the selection is saved. */
    method Submit(reply: Fetched<Envelope>, lecRes: Fetched<EnrolledReply>, autoRes: Fetched<TargetsReply>) returns (posted: Option<seq<int>>)
      modifies this`loading, this`fetching, this`msg, this`enrolled, this`selected
      ensures posted.Some? <==> AnyScheduled(old(enrolled), old(selected))
      ensures posted.Some? ==> posted.value == old(selected) && msg == SaveMessage(reply)
      ensures posted.None? ==>
                msg == NeedSchedule && enrolled == old(enrolled) && selected == old(selected)
                && loading == old(loading) && fetching == old(fetching)
    {
      if !AnyScheduled(enrolled, selected) {
        msg := NeedSchedule;
        return None;
      }
      posted := Some(selected);
      HandleSave(selected, reply, lecRes, autoRes);
    }

    /** "전체 OFF": an empty list is saved, with no guard. */
    method AllOff(reply: Fetched<Envelope>, lecRes: Fetched<EnrolledReply>, autoRes: Fetched<TargetsReply>) returns (posted: seq<int>)
      modifies this`loading, this`fetching, this`msg, this`enrolled, this`selected
      ensures posted == [] && msg == SaveMessage(reply) && !loading
    {
      posted := [];
      HandleSave(posted, reply, lecRes, autoRes);
    }

    /** `fetchAttendances`: nothing without a user id; otherwise the rows and their count, or the lookup error. */
    method FetchAttendances(reply: Fetched<LogsReply>) returns (requested: bool)
      modifies this`attLoading, this`attMsg, this`attendances
      ensures requested <==> userId != ""
      ensures !requested ==> attLoading == old(attLoading) && attMsg == old(attMsg) && attendances == old(attendances)
      ensures requested && reply.Returned? && reply.json.Some? && reply.json.value.status == "success" ==>
                attendances == (if reply.json.value.attendances.Some? then reply.json.value.attendances.value else [])
                && attMsg == "총 " + reply.json.value.count + "건"
      ensures requested && !(reply.Returned? && reply.json.Some? && reply.json.value.status == "success") ==>
                attendances == [] && attMsg == LogLookupFailed
      ensures requested ==> !attLoading
    {
      if userId == "" {
        return false;
      }
      attLoading := true;
      attMsg := "";
      attendances := [];
      if reply.Returned? && reply.json.Some? && reply.json.value.status == "success" {
        attendances := if reply.json.value.attendances.Some? then reply.json.value.attendances.value else [];
        attMsg := "총 " + reply.json.value.count + "건";
      } else {
        attendances := [];
        attMsg := LogLookupFailed;
      }
      attLoading := false;
      return true;
    }
  }
}
