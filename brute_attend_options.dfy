/**
 * The Pro user's auto-attendance page: toggling lectures, the guard against
 * saving an empty selection, the save and stop-all requests and the
 * message and status each leaves, and how a lecture is named and enabled.
 */
module BruteAttendOptions {
  import opened Common
  import opened ClientAuth
  import opened LectureView
  import opened Selection

  /** `saveStatus` and `stopStatus` once set. */
  datatype Outcome = Success | Error

  const NeedOne := "한 개 이상의 강의를 선택해야 합니다."
  const AllOffText := "전체 OFF"
  const Started := "자동 출석 실행됨."
  const RunFailed := "실행 실패"
  const RunError := "실행 중 오류 발생"
  const StoppedText := "모든 자동 출석 OFF"
  const StopFailed := "실패"
  const StopError := "프로세스 종료 중 오류 발생"

  /** The message and status `handleSave` leaves for the posted selection. */
  function SaveResult(selected: seq<int>, reply: Fetched<Envelope>): (Outcome, string)
  {
    match reply
    case Threw => (Error, RunError)
    case Returned(Some(e)) =>
      if e.status == "success" then
        (Success, if Truthy(e.message) then e.message.value else if selected == [] then AllOffText else Started)
      else (Error, if Truthy(e.message) then e.message.value else RunFailed)
    case Returned(None) => (Error, RunFailed)
  }

  /** The message and status `handleStopRunner` leaves. */
  function StopResult(reply: Fetched<Envelope>): (Outcome, string)
  {
    match reply
    case Threw => (Error, StopError)
    case Returned(Some(e)) =>
      if e.status == "success" then (Success, if Truthy(e.message) then e.message.value else StoppedText)
      else (Error, if Truthy(e.message) then e.message.value else StopFailed)
    case Returned(None) => (Error, StopFailed)
  }

  /**
   * Both requests succeed exactly when the server answers `success`; a
   * message from the server is shown whenever it has one unless the request
   * threw; every outcome has a message.
   */
  lemma ResultMeaning(selected: seq<int>, reply: Fetched<Envelope>)
    ensures var ok := reply.Returned? && reply.json.Some? && reply.json.value.status == "success";
      (SaveResult(selected, reply).0 == Success <==> ok) && (StopResult(reply).0 == Success <==> ok)
    ensures SaveResult(selected, reply).1 != "" && StopResult(reply).1 != ""
    ensures reply.Returned? && reply.json.Some? && Truthy(reply.json.value.message) ==>
              SaveResult(selected, reply).1 == reply.json.value.message.value
              && StopResult(reply).1 == reply.json.value.message.value
    ensures reply == Returned(Some(Envelope("success", None))) ==>
              SaveResult(selected, reply).1 == (if selected == [] then AllOffText else Started)
  {
  }

  /** The checkbox of a lecture is disabled exactly when it has no schedules. */
  predicate Disabled(l: Lecture)
  {
    !HasSchedules(l)
  }

  /** `lec.lecture_name || lec.name || lec.code || lec.plato_course_id || '강의'`. */
  function DisplayName(l: Lecture): (r: string)
    ensures r != ""
  {
    if Truthy(l.lectureName) then l.lectureName.value
    else if Truthy(l.name) then l.name.value
    else if Truthy(l.code) then l.code.value
    else if Truthy(l.platoCourseId) then l.platoCourseId.value
    else "강의"
  }

  /**
   * The name is the first present, non-empty field in the order
   * lecture name, name, code, course id; only a lecture with none of them is
   * called "강의".
   */
  lemma DisplayNameMeaning(l: Lecture)
    ensures Truthy(l.lectureName) ==> DisplayName(l) == l.lectureName.value
    ensures !Truthy(l.lectureName) && Truthy(l.name) ==> DisplayName(l) == l.name.value
    ensures !Truthy(l.lectureName) && !Truthy(l.name) && Truthy(l.code) ==> DisplayName(l) == l.code.value
    ensures Some(DisplayName(l)) in [l.lectureName, l.name, l.code, l.platoCourseId, Some("강의")]
    ensures (!Truthy(l.lectureName) && !Truthy(l.name) && !Truthy(l.code) && !Truthy(l.platoCourseId))
              ==> DisplayName(l) == "강의"
  {
  }

  /** The page's selection state. */
  class Options {
    var lectures: seq<Lecture>
    var selected: seq<int>
    var saving: bool
    var stopping: bool
    var message: string
    var saveStatus: Option<Outcome>
    var stopStatus: Option<Outcome>
    var showEdit: bool

    constructor ()
      ensures lectures == [] && selected == [] && !saving && !stopping && message == ""
      ensures saveStatus == None && stopStatus == None && !showEdit
    {
      lectures, selected, saving, stopping, message := [], [], false, false, "";
      saveStatus, stopStatus, showEdit := None, None, false;
    }

    /** `handleChange`: the clicked id toggled in the selection. */
    method HandleChange(id: int)
      modifies this`selected
      ensures selected == Toggle(old(selected), id)
    {
      if id in selected {
        selected := Without(selected, id);
      } else {
        selected := selected + [id];
      }
    }

    /** `handleSave`: posts the selection; a success also leaves edit mode. */
    method HandleSave(reply: Fetched<Envelope>) returns (posted: seq<int>)
      modifies this`saving, this`message, this`saveStatus, this`showEdit
      ensures posted == selected
      ensures saveStatus == Some(SaveResult(selected, reply).0) && message == SaveResult(selected, reply).1 && !saving
      ensures showEdit == (if saveStatus.value == Success then false else old(showEdit))
    {
      saving := true;
      message := "";
      saveStatus := None;
      posted := selected;
      var (status, text) := SaveResult(selected, reply);
      message, saveStatus := text, Some(status);
      if status == Success {
        showEdit := false;
      }
      saving := false;
    }

    /** The form's submit: an empty selection is refused with an error and nothing is posted. */
    method Submit(reply: Fetched<Envelope>) returns (posted: Option<seq<int>>)
      modifies this`saving, this`message, this`saveStatus, this`showEdit
      ensures posted.None? <==> selected == []
      ensures posted.None? ==> message == NeedOne && saveStatus == Some(Error) && saving == old(saving)
      ensures posted.Some? ==> posted.value == selected && saveStatus == Some(SaveResult(selected, reply).0)
                               && message == SaveResult(selected, reply).1
    {
      if selected == [] {
        message := NeedOne;
        saveStatus := Some(Error);
        return None;
      }
      var sent := HandleSave(reply);
      return Some(sent);
    }

    /** `handleStopRunner`: always posts the empty list, whatever is selected. */
    method StopRunner(reply: Fetched<Envelope>) returns (posted: seq<int>)
      modifies this`stopping, this`message, this`stopStatus, this`showEdit
      ensures posted == []
      ensures stopStatus == Some(StopResult(reply).0) && message == StopResult(reply).1 && !stopping
      ensures showEdit == (if stopStatus.value == Success then false else old(showEdit))
    {
      stopping := true;
      message := "";
      stopStatus := None;
      posted := [];
      var (status, text) := StopResult(reply);
      message, stopStatus := text, Some(status);
      if status == Success {
        showEdit := false;
      }
      stopping := false;
    }
  }
}
