/**
 * The sign-up wizard: step 1 takes name, student id and portal password
 * behind a privacy-consent box, step 2 loads the lecture list, step 3 says
 * it is done; a failed lecture load sends the user back to step 1.
 */
module Onboarding {
  import opened Common
  import opened ClientAuth
  import AuthRouter

  const MissingFields := "모든 항목을 입력해주세요."
  const NeedConsent := "개인정보 처리방침에 동의해야 회원가입이 가능합니다."
  const ProfileFailed := "정보 입력에 실패했습니다."
  const LecturesFailed := "강의목록 업데이트에 실패했습니다.\n정보를 다시 입력해주세요."

  /** The first check of `handleProfileSubmit` that fails, as the text it alerts. */
  function ProfileError(name: string, studentId: string, password: string, agree: bool): Option<string>
  {
    if name == "" || studentId == "" || password == "" then Some(MissingFields)
    else if !agree then Some(NeedConsent)
    else None
  }

  /** Whether an answer reports `success`; `res?.status` of `null` is not. */
  predicate Succeeded(reply: Fetched<Envelope>)
  {
    reply.Returned? && reply.json.Some? && reply.json.value.status == "success"
  }

  /** `res?.message || fallback`. */
  function FailureText(reply: Fetched<Envelope>, fallback: string): string
  {
    if reply.Returned? && reply.json.Some? && Truthy(reply.json.value.message) then reply.json.value.message.value
    else fallback
  }

  /** The step after a profile answer: 2 on success; otherwise unchanged (an exception propagates, as no handler catches it). */
  function AfterProfile(step: int, reply: Fetched<Envelope>): int
  {
    if Succeeded(reply) then 2 else step
  }

  /** The step after a lecture-load answer: 3 on success, 1 on a failure answer, unchanged when the request threw. */
  function AfterLectures(step: int, reply: Fetched<Envelope>): int
  {
    if Succeeded(reply) then 3 else if reply.Threw? then step else 1
  }

  /**
   * The wizard never leaves steps 1 to 3; step 2 is reached only by a
   * successful profile answer and step 3 only by a successful lecture load.
   */
  lemma StepsMeaning(step: int, reply: Fetched<Envelope>)
    requires 1 <= step <= 3
    ensures 1 <= AfterProfile(step, reply) <= 3 && 1 <= AfterLectures(step, reply) <= 3
    ensures AfterProfile(step, reply) == 2 <==> Succeeded(reply) || step == 2
    ensures AfterLectures(step, reply) == 3 <==> Succeeded(reply) || (reply.Threw? && step == 3)
    ensures reply.Returned? && !Succeeded(reply) ==> AfterLectures(step, reply) == 1
  {
  }

  /** The submit button is disabled exactly while loading or before consent. */
  predicate SubmitDisabled(loading: bool, agree: bool)
  {
    loading || !agree
  }

  /** The wizard's state. */
  class Wizard {
    var step: int
    var name: string
    var studentId: string
    var studentPassword: string
    var loading: bool
    var agree: bool

    predicate Valid()
      reads this
    {
      1 <= step <= 3
    }

    constructor ()
      ensures Valid() && step == 1 && name == "" && studentId == "" && studentPassword == ""
      ensures !loading && !agree
    {
      step, name, studentId, studentPassword := 1, "", "", "";
      loading, agree := false, false;
    }

    /** The mount effect: the name is prefilled from `/me` when the answer has a non-empty one. */
    method Prefill(me: Fetched<AuthRouter.Me>)
      modifies this`name
      ensures name == (if me.Returned? && me.json.Some? && me.json.value.name != "" then me.json.value.name else old(name))
    {
      if me.Returned? && me.json.Some? && me.json.value.name != "" {
        name := me.json.value.name;
      }
    }

    /**
     * `handleProfileSubmit`: a missing field or missing consent is alerted
     * and nothing is sent; otherwise the form is sent and a success moves to
     * step 2, a failure answer is alerted.
     */
    method ProfileSubmit(reply: Fetched<Envelope>) returns (requested: bool, alert: Option<string>)
      requires Valid()
      modifies this`step, this`loading
      ensures Valid()
      ensures requested <==> ProfileError(name, studentId, studentPassword, agree).None?
      ensures !requested ==> alert == ProfileError(name, studentId, studentPassword, agree)
                             && step == old(step) && loading == old(loading)
      ensures requested ==> step == AfterProfile(old(step), reply) && !loading
      ensures requested ==> (alert.Some? <==> reply.Returned? && !Succeeded(reply))
      ensures requested && alert.Some? ==> alert.value == FailureText(reply, ProfileFailed)
    {
      var check := ProfileError(name, studentId, studentPassword, agree);
      if check.Some? {
        return false, check;
      }
      loading := true;
      alert := None;
      if Succeeded(reply) {
        step := 2;
      } else if reply.Returned? {
        alert := Some(FailureText(reply, ProfileFailed));
      }
      loading := false;
      return true, alert;
    }

    /** `handleLectureUpdate`: success moves to step 3; a failure answer is alerted and goes back to step 1. */
    method LectureUpdate(reply: Fetched<Envelope>) returns (alert: Option<string>)
      requires Valid()
      modifies this`step, this`loading
      ensures Valid() && step == AfterLectures(old(step), reply) && !loading
      ensures alert.Some? <==> reply.Returned? && !Succeeded(reply)
      ensures alert.Some? ==> alert.value == FailureText(reply, LecturesFailed)
    {
      loading := true;
      alert := None;
      if Succeeded(reply) {
        step := 3;
      } else if reply.Returned? {
        alert := Some(FailureText(reply, LecturesFailed));
        step := 1;
      }
      loading := false;
    }
  }
}
