/**
 * The account form: it submits only in editing mode, needs a name and a
 * student id, and sends an empty password as the server's keep-the-stored
 * sentinel; a saved profile leaves editing mode and clears the password.
 */
module AccountForm {
  import opened Common
  import opened ClientAuth
  import Models
  import AuthRouter

  const NeedNameAndId := "이름과 학번을 입력해주세요."
  const Saved := "정보가 성공적으로 수정되었습니다."
  const SaveFailed := "정보 수정에 실패했습니다."
  const RequestError := "서버 요청 중 오류가 발생했습니다."

  /** `password ? password : "__NO_CHANGE__"`. */
  function PasswordToSend(password: string): string
  {
    if password != "" then password else AuthRouter.NoChange
  }

  /**
   * Against `update_profile`: an empty password field keeps the stored
   * password and any other is stored encrypted, except that a password
   * typed as the sentinel itself is taken for "keep".
   */
  lemma PasswordKept(password: string, stored: Option<Models.Secret>)
    ensures password == "" ==> AuthRouter.StoredSecret(PasswordToSend(password), stored) == stored
    ensures password != "" && password != AuthRouter.NoChange ==>
              AuthRouter.StoredSecret(PasswordToSend(password), stored) == Some(Models.Encrypted(password))
    ensures password == AuthRouter.NoChange ==> AuthRouter.StoredSecret(PasswordToSend(password), stored) == stored
    ensures PasswordToSend(password) != ""
  {
  }

  /** The fields of one `update_profile` request. */
  datatype ProfileForm = ProfileForm(name: string, studentId: string, studentPassword: string)

  /** The alert after an answer; a `null` answer fails to be read and lands in the handler's catch. */
  function AnswerAlert(reply: Fetched<Envelope>): string
  {
    match reply
    case Threw => RequestError
    case Returned(None) => RequestError
    case Returned(Some(e)) =>
      if Truthy(e.message) then e.message.value
      else if e.status == "success" then Saved
      else SaveFailed
  }

  /** The form's state. */
  class Account {
    var name: string
    var studentId: string
    var password: string
    var editing: bool

    /** `useState(initialName)`, `useState(initialStudentId)`, an empty password, not editing. */
    constructor (initialName: string, initialStudentId: string)
      ensures name == initialName && studentId == initialStudentId && password == "" && !editing
    {
      name, studentId, password, editing := initialName, initialStudentId, "", false;
    }

    /** The first effect: a boolean `isEditing` prop from the parent decides editing mode. */
    method SyncExternal(externalEditing: Option<bool>)
      modifies this`editing
      ensures editing == (if externalEditing.Some? then externalEditing.value else old(editing))
    {
      if externalEditing.Some? {
        editing := externalEditing.value;
      }
    }

    /** The second effect: new initial values replace the fields and clear the password. */
    method Reset(initialName: string, initialStudentId: string)
      modifies this`name, this`studentId, this`password
      ensures name == initialName && studentId == initialStudentId && password == ""
    {
      name, studentId, password := initialName, initialStudentId, "";
    }

    /** `handleEditClick`: editing mode on. */
    method EditClick()
      modifies this`editing
      ensures editing
    {
      editing := true;
    }

    /**
     * `handleSubmit`: nothing outside editing mode; a missing name or
     * student id is alerted and nothing is sent; otherwise the form is sent
     * with the password or the sentinel, and a success leaves editing mode
     * and clears the password.
     */
    method Submit(reply: Fetched<Envelope>) returns (sent: Option<ProfileForm>, alert: Option<string>)
      modifies this`editing, this`password
      ensures !old(editing) ==> sent.None? && alert.None? && editing == old(editing) && password == old(password)
      ensures old(editing) && (name == "" || studentId == "") ==>
                sent.None? && alert == Some(NeedNameAndId) && editing && password == old(password)
      ensures sent.Some? <==> old(editing) && name != "" && studentId != ""
      ensures sent.Some? ==> sent.value == ProfileForm(name, studentId, PasswordToSend(old(password)))
                             && alert == Some(AnswerAlert(reply))
      ensures sent.Some? && reply.Returned? && reply.json.Some? && reply.json.value.status == "success" ==>
                !editing && password == ""
      ensures sent.Some? && !(reply.Returned? && reply.json.Some? && reply.json.value.status == "success") ==>
                editing && password == old(password)
    {
      if !editing {
        return None, None;
      }
      if name == "" || studentId == "" {
        return None, Some(NeedNameAndId);
      }
      sent := Some(ProfileForm(name, studentId, PasswordToSend(password)));
      alert := Some(AnswerAlert(reply));
      if reply.Returned? && reply.json.Some? && reply.json.value.status == "success" {
        editing := false;
        password := "";
      }
    }
  }
}
