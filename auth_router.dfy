/**
 * The sign-in endpoints: the profile report of `/me`, sign-in with a
 * Firebase token (creating the account on first use), the profile update
 * with its keep-the-password sentinel, and redeeming a Pro key.
 * Verifying the Firebase token is a parameter: its outcome is either the
 * claims the token carries or the text of the error it raised.
 */
module AuthRouter {
  import opened Common
  import opened Models
  import opened ProKeys

  // ---------------------------------------------------------------------
  // GET /me
  // ---------------------------------------------------------------------

  /** `bool(name and student_id and student_password_encrypted)`. */
  predicate ProfileComplete(name: string, studentId: Option<string>, passwordEnc: Option<Secret>)
  {
    name != "" && Truthy(studentId) && passwordEnc.Some?
  }

  datatype Me = Me(id: int, name: string, studentId: Option<string>, studentPassword: bool,
                   profileComplete: bool, isAdmin: bool, isPro: bool)

  /** `whoami`: the user's fields, whether a password is stored, and whether the profile is complete. */
  function Whoami(u: User): (r: Me)
    reads u
    ensures r.id == u.id && r.name == u.name && r.studentId == u.studentId
    ensures r.isAdmin == u.isAdmin && r.isPro == u.isPro
    ensures r.studentPassword <==> u.passwordEnc.Some?
    ensures r.profileComplete <==> (u.name != "" && Truthy(u.studentId) && r.studentPassword)
  {
    Me(u.id, u.name, u.studentId, u.passwordEnc.Some?, ProfileComplete(u.name, u.studentId, u.passwordEnc),
       u.isAdmin, u.isPro)
  }

  // ---------------------------------------------------------------------
  // POST /login_firebase
  // ---------------------------------------------------------------------

  /** What `verify_firebase_token` gave: the `uid` and optional `name` claims, or the error's text. */
  datatype TokenCheck = Verified(uid: string, name: Option<string>) | Rejected(error: string)

  datatype LoginReply = LoginFailed(message: string) | LoggedIn(userId: int, profileComplete: bool)

  const InvalidToken := "유효하지 않은 Firebase 토큰입니다. 다시 로그인 해주세요."
  const ClockHint := " (서버와 클라이언트의 '시간대'가 아니라 '시계(UTC 기준 현재 시각)'가 정확해야 합니다. 운영체제의 인터넷 시간 동기화(NTP)를 반드시 확인하세요. 시간대는 달라도 상관없으며, 시계가 실제 세계 표준시(UTC)와 오차 없이 맞아 있으면 됩니다.)"
  const PopupHint := " (구글 로그인 팝업이 차단되었습니다. 브라우저의 팝업 차단 기능을 해제하고 다시 시도해 주세요. 일부 브라우저에서는 주소창 오른쪽에 팝업 차단 알림이 표시될 수 있습니다.)"
  const NoName := "이름없음"

  /** The failure message: the base text, then a hint for each marker the error's text contains. */
  function LoginMessage(error: string): string
  {
    InvalidToken + (if Contains(error, "Token used too early") then ClockHint else "")
    + (if Contains(error, "auth/popup-blocked") then PopupHint else "")
  }

  /** What follows a prefix in a concatenation of three parts. */
  lemma AfterPrefix(a: string, b: string, c: string)
    ensures StartsWith(a + b + c, a) && (a + b + c)[|a|..] == b + c
  {
    assert (a + b + c)[..|a|] == a;
  }

  /**
   * The failure message always starts with the base text; it is exactly the
   * base text when the error names neither marker, and each marker adds
   * its hint, the clock hint first.
   */
  lemma LoginMessageMeaning(error: string)
    ensures var r := LoginMessage(error);
      StartsWith(r, InvalidToken)
      && (!Contains(error, "Token used too early") && !Contains(error, "auth/popup-blocked") ==> r == InvalidToken)
      && (Contains(error, "Token used too early") ==> StartsWith(r[|InvalidToken|..], ClockHint))
      && (!Contains(error, "Token used too early") && Contains(error, "auth/popup-blocked") ==>
        r[|InvalidToken|..] == PopupHint)
  {
    var b := if Contains(error, "Token used too early") then ClockHint else "";
    var c := if Contains(error, "auth/popup-blocked") then PopupHint else "";
    AfterPrefix(InvalidToken, b, c);
    assert (b + c)[..|b|] == b;
  }

  /** `decoded_token.get("name", "이름없음")`. */
  function NameOrDefault(name: Option<string>): string
  {
    if name.Some? then name.value else NoName
  }

  /** `query(User).filter_by(firebase_uid=uid).first()`. */
  function FindByUid(users: seq<User>, uid: string): (r: Option<User>)
    ensures r.Some? ==> r.value in users && r.value.firebaseUid == Some(uid)
    ensures r.None? <==> forall u :: u in users ==> u.firebaseUid != Some(uid)
  {
    if users == [] then None
    else if users[0].firebaseUid == Some(uid) then Some(users[0])
    else FindByUid(users[1..], uid)
  }

  /** A user appended when no user had the uid is the one the next lookup finds. */
  lemma {:induction false} FindByUidAppend(users: seq<User>, u: User, uid: string)
    requires FindByUid(users, uid).None? && u.firebaseUid == Some(uid)
    ensures FindByUid(users + [u], uid) == Some(u)
  {
    if users != [] {
      assert (users + [u])[1..] == users[1..] + [u];
      FindByUidAppend(users[1..], u, uid);
    }
  }

  /**
   * `login_firebase`: a rejected token gives the failure message and creates
   * nothing; otherwise the user with the token's uid signs in, and a new
   * user (no student id, no password) is created on a uid's first sign-in.
   * Either way that user is afterwards the one found for the uid.
   */
  method LoginFirebase(db: Db, check: TokenCheck) returns (reply: LoginReply)
    modifies db`users
    ensures check.Rejected? ==> reply == LoginFailed(LoginMessage(check.error)) && db.users == old(db.users)
    ensures check.Verified? && FindByUid(old(db.users), check.uid).Some? ==>
      var u := FindByUid(old(db.users), check.uid).value;
      db.users == old(db.users) && reply == LoggedIn(u.id, ProfileComplete(u.name, u.studentId, u.passwordEnc))
    ensures check.Verified? && FindByUid(old(db.users), check.uid).None? ==>
      |db.users| == |old(db.users)| + 1 && db.users[..|old(db.users)|] == old(db.users)
      && var u := db.users[|old(db.users)|];
      fresh(u) && u.id == NextId(UserIds(old(db.users))) && u.firebaseUid == Some(check.uid)
      && u.name == NameOrDefault(check.name) && u.studentId == None && u.passwordEnc == None
      && !u.isPro && !u.isAdmin && reply == LoggedIn(u.id, false)
    ensures check.Verified? ==> (FindByUid(db.users, check.uid).Some?
      && reply.LoggedIn? && reply.userId == FindByUid(db.users, check.uid).value.id)
    ensures old(db.Valid()) ==> db.Valid()
  {
    match check {
      case Rejected(error) =>
        return LoginFailed(LoginMessage(error));
      case Verified(uid, name) =>
        var found := FindByUid(db.users, uid);
        if found.Some? {
          var u := found.value;
          return LoggedIn(u.id, ProfileComplete(u.name, u.studentId, u.passwordEnc));
        }
        var u := new User(NextId(UserIds(db.users)), Some(uid), NameOrDefault(name));
        FindByUidAppend(db.users, u, uid);
        db.users := db.users + [u];
        assert db.users[..|old(db.users)|] == old(db.users);
        reply := LoggedIn(u.id, ProfileComplete(u.name, u.studentId, u.passwordEnc));
    }
  }

  // ---------------------------------------------------------------------
  // POST /update_profile
  // ---------------------------------------------------------------------

  /** The password field's value that keeps the stored password. */
  const NoChange := "__NO_CHANGE__"
  const ProfileSaved := "정보가 성공적으로 수정되었습니다."

  /** `decrypt`: the plaintext of a stored password, if one is stored. */
  function Decrypt(stored: Option<Secret>): Option<string>
  {
    if stored.Some? then Some(stored.value.plain) else None
  }

  /** The stored password after the update: the sentinel keeps it, any other value replaces it. */
  function StoredSecret(password: string, stored: Option<Secret>): Option<Secret>
  {
    if password != NoChange then Some(Encrypted(password)) else stored
  }

  /**
   * `decrypted_password`: the new password, or for the sentinel the stored
   * one decrypted. It is always the plaintext of what is stored afterwards.
   */
  function Plaintext(password: string, stored: Option<Secret>): (r: Option<string>)
    ensures r == Decrypt(StoredSecret(password, stored))
    ensures password != NoChange ==> r == Some(password)
    ensures password == NoChange ==> r == Decrypt(stored)
  {
    if password != NoChange then Some(password)
    else if stored.Some? then Some(stored.value.plain)
    else None
  }

  /**
   * FastAPI's answer for a required `Form(...)` field sent empty: an empty
   * form value counts as missing, so the request is refused with 422 before
   * the handler runs. Only the status and the message are modelled.
   */
  const FieldRequired := "Field required"

  /**
   * `update_profile`: an empty field is a 422 that changes nothing; otherwise
   * sets the name and the student id, replaces the stored password unless
   * the sentinel was sent, then grants the administrator flag when the
   * student id and the plaintext now stored are the special account's.
   */
  method UpdateProfile(user: User, name: string, studentId: string, password: string, admin: AdminAccount)
    returns (r: Response<string>)
    modifies user`name, user`studentId, user`passwordEnc, user`isAdmin
    ensures r.Ok? <==> name != "" && studentId != "" && password != ""
    ensures r.HttpError? ==> r == HttpError(422, FieldRequired) && unchanged(user)
    ensures r.Ok? ==> r.value == ProfileSaved && user.name == name && user.studentId == Some(studentId)
    ensures r.Ok? ==> user.passwordEnc == StoredSecret(password, old(user.passwordEnc))
    ensures r.Ok? && password == NoChange ==> user.passwordEnc == old(user.passwordEnc)
    ensures r.Ok? ==>
      user.isAdmin == (old(user.isAdmin) || IsSpecialAdmin(Some(studentId), Decrypt(user.passwordEnc), admin))
    ensures r.Ok? ==>
      (ProfileComplete(user.name, user.studentId, user.passwordEnc) <==> password != NoChange || old(user.passwordEnc).Some?)
  {
    if name == "" || studentId == "" || password == "" {
      return HttpError(422, FieldRequired);
    }
    user.name := name;
    user.studentId := Some(studentId);
    var decrypted: Option<string>;
    if password != NoChange {
      user.passwordEnc := Some(Encrypted(password));
      decrypted := Some(password);
    } else {
      decrypted := if user.passwordEnc.Some? then Some(user.passwordEnc.value.plain) else None;
    }
    user.SetAdminIfSpecial(decrypted, admin);
    r := Ok(ProfileSaved);
  }

  // ---------------------------------------------------------------------
  // POST /verify_pro_key
  // ---------------------------------------------------------------------

  const UnknownKey := "해당 ProKey는 존재하지 않습니다."
  const UsedKey := "이미 사용된 키입니다."
  const KeyApplied := "ProKey가 정상적으로 적용되었습니다. 이제 Pro 기능을 사용할 수 있습니다."

  /** The row after redemption: used, by `userId`, at `at`. */
  function Redeemed(k: ProKey, userId: int, at: int): (r: ProKey)
    ensures r.key == k.key && r.isUsed && r.usedBy == Some(userId) && r.usedAt == Some(at)
  {
    ProKey(k.key, true, Some(userId), Some(at))
  }

  /**
   * `verify_pro_key`: an empty key is a 422, an unknown key a 404 and a
   * used key a 400, all changing nothing; otherwise the first row with the
   * key is marked used by the caller at `nowUtc`, and the caller becomes Pro.
   */
  method VerifyProKey(db: Db, caller: User, apiKey: string, nowUtc: int) returns (r: Response<string>)
    modifies db`proKeys, caller`isPro
    ensures apiKey == "" ==>
      r == HttpError(422, FieldRequired) && db.proKeys == old(db.proKeys) && caller.isPro == old(caller.isPro)
    ensures apiKey != "" && KeyIndex(old(db.proKeys), apiKey).None? ==>
      r == HttpError(404, UnknownKey) && db.proKeys == old(db.proKeys) && caller.isPro == old(caller.isPro)
    ensures apiKey != "" && KeyIndex(old(db.proKeys), apiKey).Some?
            && old(db.proKeys)[KeyIndex(old(db.proKeys), apiKey).value].isUsed ==>
      r == HttpError(400, UsedKey) && db.proKeys == old(db.proKeys) && caller.isPro == old(caller.isPro)
    ensures apiKey != "" && KeyIndex(old(db.proKeys), apiKey).Some?
            && !old(db.proKeys)[KeyIndex(old(db.proKeys), apiKey).value].isUsed ==>
      var i := KeyIndex(old(db.proKeys), apiKey).value;
      r == Ok(KeyApplied) && caller.isPro
      && db.proKeys == old(db.proKeys)[i := Redeemed(old(db.proKeys)[i], caller.id, nowUtc)]
  {
    if apiKey == "" {
      return HttpError(422, FieldRequired);
    }
    var i := KeyIndex(db.proKeys, apiKey);
    if i.None? {
      return HttpError(404, UnknownKey);
    }
    var k := db.proKeys[i.value];
    if k.isUsed {
      return HttpError(400, UsedKey);
    }
    db.proKeys := db.proKeys[i.value := Redeemed(k, caller.id, nowUtc)];
    caller.isPro := true;
    r := Ok(KeyApplied);
  }

  /**
   * After a redemption the same key is found at the same row, now used, so
   * a second redemption is refused; the keys themselves do not change.
   */
  lemma RedeemOnce(table: seq<ProKey>, key: string, userId: int, at: int)
    requires KeyIndex(table, key).Some? && !table[KeyIndex(table, key).value].isUsed
    ensures var i := KeyIndex(table, key).value;
      var t := table[i := Redeemed(table[i], userId, at)];
      KeyIndex(t, key) == Some(i) && t[i].isUsed
      && (UniqueKeys(table) ==> UniqueKeys(t))
  {
    var i := KeyIndex(table, key).value;
    var t := table[i := Redeemed(table[i], userId, at)];
    assert t[i].key == key;
  }
}
