/**
 * The administrator endpoints: the administrator gate, issuing and deleting
 * Pro keys, granting the Pro and administrator flags, replacing a user's
 * automatic-attendance set, and the list of every pair the runner watches.
 * `caller` is the signed-in user the request comes from.
 */
module AdminRouter {
  import opened Common
  import opened Models
  import opened ProKeys
  import AttendanceRouter
  import Runner

  const Forbidden := "관리자 권한이 필요합니다."
  const NoSuchUser := "사용자를 찾을 수 없습니다."

  /** `admin_required`: the error every endpoint below raises for a caller without the flag. */
  function AdminRequired(isAdmin: bool): (r: Option<(int, string)>)
    ensures r.None? <==> isAdmin
    ensures r.Some? ==> r.value == (403, Forbidden)
  {
    if isAdmin then None else Some((403, Forbidden))
  }

  // ---------------------------------------------------------------------
  // POST /prokeys
  // ---------------------------------------------------------------------

  /** The draws one slot may use. */
  const SlotTries: nat := 10

  /** One slot's outcome: the key it added, if any, and the number of the next draw. */
  datatype Pick = Pick(key: Option<string>, next: nat)

  /** The keys `generate_cdkey()` returns, by the number of the draw. */
  function DrawnKeys(draw: nat -> Draw): (keys: nat -> string)
    requires forall k :: ValidDraw(draw(k))
    ensures forall k :: keys(k) == KeyOf(draw(k))
  {
    (k: nat) => KeyOf(draw(k))
  }

  /** Every drawn key has the key shape. */
  lemma DrawnKeysShape(draw: nat -> Draw)
    requires forall k :: ValidDraw(draw(k))
    ensures forall k :: KeyShape(DrawnKeys(draw)(k))
  {
    forall k ensures KeyShape(DrawnKeys(draw)(k)) {
      KeyRoundTrip(draw(k));
    }
  }

  /** The inner loop for one slot: up to `tries` draws, stopping at the first key no row has. */
  function Slot(table: seq<ProKey>, keys: nat -> string, next: nat, tries: nat): Pick
    decreases tries
  {
    if tries == 0 then Pick(None, next)
    else if !HasKey(table, keys(next)) then Pick(Some(keys(next)), next + 1)
    else Slot(table, keys, next + 1, tries - 1)
  }

  /**
   * A slot uses at most `tries` draws; the key it finds is the last one
   * drawn, and no row has it.
   */
  lemma {:induction false} SlotMeaning(table: seq<ProKey>, keys: nat -> string, next: nat, tries: nat)
    ensures var r := Slot(table, keys, next, tries);
      next <= r.next <= next + tries
      && (r.key.Some? ==> next < r.next && r.key.value == keys(r.next - 1) && !HasKey(table, r.key.value))
    decreases tries
  {
    if tries > 0 && HasKey(table, keys(next)) {
      SlotMeaning(table, keys, next + 1, tries - 1);
    }
  }

  /** The rows `ProKey(key=key)` for the keys, in order. */
  function NewRows(keys: seq<string>): (r: seq<ProKey>)
    ensures |r| == |keys| && forall i :: 0 <= i < |keys| ==> r[i] == NewKey(keys[i])
  {
    seq(|keys|, i requires 0 <= i < |keys| => NewKey(keys[i]))
  }

  /**
   * The keys the outer loop creates over `slots` slots as intended: each
   * slot checks its draws against the keys added before it as well.
   */
  function Slots(table: seq<ProKey>, keys: nat -> string, next: nat, slots: nat, tries: nat): seq<string>
    decreases slots
  {
    if slots == 0 then []
    else
      var p := Slot(table, keys, next, tries);
      match p.key
      case Some(key) => [key] + Slots(table + [NewKey(key)], keys, p.next, slots - 1, tries)
      case None => Slots(table, keys, p.next, slots - 1, tries)
  }

  /** The first step of the outer loop. */
  lemma SlotsStep(table: seq<ProKey>, keys: nat -> string, next: nat, slots: nat, tries: nat)
    requires slots > 0
    ensures var p := Slot(table, keys, next, tries);
      Slots(table, keys, next, slots, tries)
      == if p.key.Some? then [p.key.value] + Slots(table + [NewKey(p.key.value)], keys, p.next, slots - 1, tries)
         else Slots(table, keys, p.next, slots - 1, tries)
  {
  }

  /** At most one key per slot. */
  lemma {:induction false} SlotsCount(table: seq<ProKey>, keys: nat -> string, next: nat, slots: nat, tries: nat)
    ensures |Slots(table, keys, next, slots, tries)| <= slots
    decreases slots
  {
    if slots > 0 {
      var p := Slot(table, keys, next, tries);
      SlotsStep(table, keys, next, slots, tries);
      if p.key.Some? {
        SlotsCount(table + [NewKey(p.key.value)], keys, p.next, slots - 1, tries);
      } else {
        SlotsCount(table, keys, p.next, slots - 1, tries);
      }
    }
  }

  /**
   * Every key created is a drawn one and was in no row, neither an old one
   * nor one added before it, when it was checked.
   */
  lemma {:induction false} SlotsMeaning(table: seq<ProKey>, keys: nat -> string, next: nat, slots: nat, tries: nat)
    ensures var created := Slots(table, keys, next, slots, tries);
      forall i :: 0 <= i < |created| ==> ((exists k :: created[i] == keys(k))
        && !HasKey(table + NewRows(created[..i]), created[i]))
    decreases slots
  {
    if slots > 0 {
      var p := Slot(table, keys, next, tries);
      SlotsStep(table, keys, next, slots, tries);
      if p.key.Some? {
        var key := p.key.value;
        SlotMeaning(table, keys, next, tries);
        var t2 := table + [NewKey(key)];
        var rest := Slots(t2, keys, p.next, slots - 1, tries);
        SlotsMeaning(t2, keys, p.next, slots - 1, tries);
        var created := [key] + rest;
        forall i | 0 <= i < |created|
          ensures (exists k :: created[i] == keys(k)) && !HasKey(table + NewRows(created[..i]), created[i])
        {
          if i > 0 {
            assert created[i] == rest[i - 1];
            RowsAfterFirst(table, key, rest, i);
          } else {
            assert created[0] == keys(p.next - 1);
            assert table + NewRows(created[..0]) == table;
          }
        }
      } else {
        SlotsMeaning(table, keys, p.next, slots - 1, tries);
      }
    }
  }

  /** The rows before the `i`-th created key, when the first key is `key`. */
  lemma RowsAfterFirst(table: seq<ProKey>, key: string, rest: seq<string>, i: nat)
    requires 0 < i <= |rest| + 1
    ensures table + NewRows(([key] + rest)[..i]) == table + [NewKey(key)] + NewRows(rest[..i - 1])
  {
    assert ([key] + rest)[..i] == [key] + rest[..i - 1];
    assert NewRows([key] + rest[..i - 1]) == [NewKey(key)] + NewRows(rest[..i - 1]);
  }

  /** One more key, one more row. */
  lemma NewRowsSnoc(keys: seq<string>, key: string)
    ensures NewRows(keys + [key]) == NewRows(keys) + [NewKey(key)]
  {
  }

  /** Keys added one by one, each absent when added, keep a table with unique keys unique. */
  lemma SlotsKeepUnique(table: seq<ProKey>, keys: nat -> string, next: nat, slots: nat, tries: nat)
    requires UniqueKeys(table)
    ensures UniqueKeys(table + NewRows(Slots(table, keys, next, slots, tries)))
  {
    var created := Slots(table, keys, next, slots, tries);
    SlotsMeaning(table, keys, next, slots, tries);
    // the conclusion of `SlotsMeaning`, spelled out for `created`
    assert var c := Slots(table, keys, next, slots, tries);
      forall i :: 0 <= i < |c| ==> ((exists k :: c[i] == keys(k))
        && !HasKey(table + NewRows(c[..i]), c[i]));
    var r := table + NewRows(created);
    forall i | |table| <= i < |r| ensures !HasKey(r[..i], r[i].key) {
      var k := i - |table|;
      assert r[..i] == table + NewRows(created[..k]);
      assert r[i] == NewKey(created[k]);
    }
    FreshKeepsUnique(table, r);
  }

  /** The keys `generate_pro_keys` creates all have the form `PRO-dddd-LLLL`. */
  lemma CreatedKeysShape(table: seq<ProKey>, draw: nat -> Draw, slots: nat, tries: nat)
    requires forall k :: ValidDraw(draw(k))
    ensures var created := Slots(table, DrawnKeys(draw), 0, slots, tries);
      forall i :: 0 <= i < |created| ==> KeyShape(created[i])
  {
    var keys := DrawnKeys(draw);
    SlotsMeaning(table, keys, 0, slots, tries);
    DrawnKeysShape(draw);
  }

  /** The inner loop of `generate_pro_keys`: tries up to ten draws from `next` for one slot. */
  method FillSlot(db: Db, keys: nat -> string, next: nat, tries: nat) returns (p: Pick)
    modifies db`proKeys
    ensures p == Slot(old(db.proKeys), keys, next, tries)
    ensures db.proKeys == old(db.proKeys) + (if p.key.Some? then [NewKey(p.key.value)] else [])
  {
    var n := next;
    var t := 0;
    while t < tries
      invariant 0 <= t <= tries && n == next + t
      invariant Slot(db.proKeys, keys, next, tries) == Slot(db.proKeys, keys, n, tries - t)
      invariant db.proKeys == old(db.proKeys)
    {
      var key := keys(n);
      if !HasKey(db.proKeys, key) {
        db.proKeys := db.proKeys + [NewKey(key)];
        return Pick(Some(key), n + 1);
      }
      n := n + 1;
      t := t + 1;
    }
    p := Pick(None, n);
  }

  /** The outer loop of `generate_pro_keys`: `slots` slots of up to `tries` draws each. */
  method FillSlots(db: Db, keys: nat -> string, slots: nat, tries: nat) returns (created: seq<string>)
    modifies db`proKeys
    ensures created == Slots(old(db.proKeys), keys, 0, slots, tries)
    ensures db.proKeys == old(db.proKeys) + NewRows(created)
  {
    created := [];
    var next := 0;
    var s := 0;
    while s < slots
      invariant 0 <= s <= slots
      invariant db.proKeys == old(db.proKeys) + NewRows(created)
      invariant Slots(old(db.proKeys), keys, 0, slots, tries) == created + Slots(db.proKeys, keys, next, slots - s, tries)
    {
      SlotsStep(db.proKeys, keys, next, slots - s, tries);
      var p := FillSlot(db, keys, next, tries);
      if p.key.Some? {
        NewRowsSnoc(created, p.key.value);
        created := created + [p.key.value];
      }
      next := p.next;
      s := s + 1;
    }
  }

  /** `generate_pro_keys(count)`: `count` slots of up to ten draws each. */
  method GenerateKeys(db: Db, caller: User, count: int, draw: nat -> Draw) returns (r: Response<seq<string>>)
    requires forall k :: ValidDraw(draw(k))
    modifies db`proKeys
    ensures !caller.isAdmin ==> r == HttpError(403, Forbidden) && db.proKeys == old(db.proKeys)
    ensures caller.isAdmin ==> (r == Ok(Slots(old(db.proKeys), DrawnKeys(draw), 0, if count > 0 then count else 0, SlotTries))
      && db.proKeys == old(db.proKeys) + NewRows(r.value))
  {
    if !caller.isAdmin {
      return HttpError(403, Forbidden);
    }
    var created := FillSlots(db, DrawnKeys(draw), if count > 0 then count else 0, SlotTries);
    r := Ok(created);
  }

  // ---------------------------------------------------------------------
  // DELETE /prokeys/{key}
  // ---------------------------------------------------------------------

  method DeleteProKey(db: Db, caller: User, key: string) returns (r: Response<string>)
    modifies db`proKeys
    ensures !caller.isAdmin ==> r == HttpError(403, Forbidden) && db.proKeys == old(db.proKeys)
    ensures caller.isAdmin && !HasKey(old(db.proKeys), key) ==>
      r == HttpError(404, "해당 프로키가 존재하지 않습니다.") && db.proKeys == old(db.proKeys)
    ensures caller.isAdmin && HasKey(old(db.proKeys), key) ==>
      var i := KeyIndex(old(db.proKeys), key).value;
      r == Ok("프로키 " + key + "가 삭제되었습니다.") && db.proKeys == old(db.proKeys)[..i] + old(db.proKeys)[i + 1..]
  {
    if !caller.isAdmin {
      return HttpError(403, Forbidden);
    }
    var i := KeyIndex(db.proKeys, key);
    if i.None? {
      return HttpError(404, "해당 프로키가 존재하지 않습니다.");
    }
    db.proKeys := db.proKeys[..i.value] + db.proKeys[i.value + 1..];
    r := Ok("프로키 " + key + "가 삭제되었습니다.");
  }

  /** The rows left once row `i` is removed: the earlier ones, then the later ones shifted down. */
  lemma RemoveAt(table: seq<ProKey>, i: nat)
    requires i < |table|
    ensures var r := table[..i] + table[i + 1..];
      |r| == |table| - 1 && forall j :: 0 <= j < |r| ==> r[j] == table[if j < i then j else j + 1]
  {
  }

  /**
   * With unique keys, deleting removes exactly the row with that key: every
   * other row stays, in order, and no row with the key is left.
   */
  lemma DeleteRemovesKey(table: seq<ProKey>, key: string)
    requires UniqueKeys(table) && HasKey(table, key)
    ensures var i := KeyIndex(table, key).value;
      var r := table[..i] + table[i + 1..];
      |r| == |table| - 1 && !HasKey(r, key) && (forall p :: p in r <==> p in table && p.key != key) && UniqueKeys(r)
  {
    var i := KeyIndex(table, key).value;
    DeleteKeepsUnique(table, i);
    DeleteMembers(table, i);
  }

  /** Removing row `i` of a table with unique keys removes exactly the row with its key. */
  lemma DeleteMembers(table: seq<ProKey>, i: nat)
    requires UniqueKeys(table) && i < |table|
    ensures var r := table[..i] + table[i + 1..];
      forall p :: p in r <==> p in table && p.key != table[i].key
  {
    var r := table[..i] + table[i + 1..];
    RemoveAt(table, i);
    forall p ensures p in r <==> p in table && p.key != table[i].key {
      if p in table && p.key != table[i].key {
        var j :| 0 <= j < |table| && table[j] == p;
        assert j != i;
        if j < i { assert r[j] == p; } else { assert r[j - 1] == p; }
      }
      if p in r {
        var j :| 0 <= j < |r| && r[j] == p;
        assert p == table[if j < i then j else j + 1];
      }
    }
  }

  /** Removing row `i` of a table with unique keys leaves unique keys and no row with row `i`'s key. */
  lemma DeleteKeepsUnique(table: seq<ProKey>, i: nat)
    requires UniqueKeys(table) && i < |table|
    ensures var r := table[..i] + table[i + 1..];
      UniqueKeys(r) && !HasKey(r, table[i].key)
  {
    var r := table[..i] + table[i + 1..];
    RemoveAt(table, i);
    forall a, b | 0 <= a < b < |r| ensures r[a].key != r[b].key {
      assert r[a] == table[if a < i then a else a + 1];
      assert r[b] == table[if b < i then b else b + 1];
    }
    forall j | 0 <= j < |r| ensures r[j].key != table[i].key {
      assert r[j] == table[if j < i then j else j + 1];
    }
  }

  // ---------------------------------------------------------------------
  // POST /users/{user_id}/set_pro and /users/{user_id}/set_admin
  // ---------------------------------------------------------------------

  method SetUserPro(db: Db, caller: User, userId: int, value: bool) returns (r: Response<string>)
    modifies db.users`isPro
    ensures !old(caller.isAdmin) ==> r == HttpError(403, Forbidden) && unchanged(db.users)
    ensures old(caller.isAdmin) && FindUser(db.users, userId).None? ==> r == HttpError(404, NoSuchUser) && unchanged(db.users)
    ensures old(caller.isAdmin) && FindUser(db.users, userId).Some? ==>
      r.Ok? && FindUser(db.users, userId).value.isPro == value
      && forall u :: u in db.users && u != FindUser(db.users, userId).value ==> u.isPro == old(u.isPro)
  {
    if !caller.isAdmin {
      return HttpError(403, Forbidden);
    }
    var user := FindUser(db.users, userId);
    if user.None? {
      return HttpError(404, NoSuchUser);
    }
    user.value.isPro := value;
    r := Ok("사용자 " + IntToString(userId) + "의 Pro 권한이 " + PyBool(value) + "로 변경되었습니다.");
  }

  /** `str(value)` for a Python `bool`. */
  function PyBool(b: bool): string
  {
    if b then "True" else "False"
  }

  method SetUserAdmin(db: Db, caller: User, userId: int, value: bool) returns (r: Response<string>)
    modifies db.users`isAdmin
    ensures !old(caller.isAdmin) ==> r == HttpError(403, Forbidden) && unchanged(db.users)
    ensures old(caller.isAdmin) && FindUser(db.users, userId).None? ==> r == HttpError(404, NoSuchUser) && unchanged(db.users)
    ensures old(caller.isAdmin) && FindUser(db.users, userId).Some? && userId == caller.id && !value ==>
      r == HttpError(400, "자신의 관리자 권한을 해제할 수 없습니다.") && unchanged(db.users)
    ensures old(caller.isAdmin) && FindUser(db.users, userId).Some? && !(userId == caller.id && !value) ==>
      r.Ok? && FindUser(db.users, userId).value.isAdmin == value
      && forall u :: u in db.users && u != FindUser(db.users, userId).value ==> u.isAdmin == old(u.isAdmin)
    ensures old(caller.isAdmin) ==> caller.isAdmin
  {
    if !caller.isAdmin {
      return HttpError(403, Forbidden);
    }
    var user := FindUser(db.users, userId);
    if user.None? {
      return HttpError(404, NoSuchUser);
    }
    if user.value.id == caller.id && !value {
      return HttpError(400, "자신의 관리자 권한을 해제할 수 없습니다.");
    }
    user.value.isAdmin := value;
    r := Ok("사용자 " + IntToString(userId) + "의 관리자 권한이 " + PyBool(value) + "로 변경되었습니다.");
  }

  // ---------------------------------------------------------------------
  // POST /users/{user_id}/set_auto_attendance
  // ---------------------------------------------------------------------

  /** `str(ids)` for a Python list of ints. */
  function ListRepr(ids: seq<int>): string
  {
    "[" + Join(seq(|ids|, i requires 0 <= i < |ids| => IntToString(ids[i])), ", ") + "]"
  }

  /**
   * `admin_set_auto_attendance`: `ids` is `None` when `lecture_ids` is not
   * a list. The target user need not exist.
   */
  method AdminSetAutoAttendance(db: Db, caller: User, userId: int, ids: Option<seq<int>>)
    returns (r: Response<AttendanceRouter.Reply>)
    modifies db`enrolments
    ensures !caller.isAdmin ==> r == HttpError(403, Forbidden) && db.enrolments == old(db.enrolments)
    ensures caller.isAdmin && ids.None? ==>
      r == Ok(AttendanceRouter.Reply(false, "lecture_ids는 리스트여야 합니다.")) && db.enrolments == old(db.enrolments)
    ensures caller.isAdmin && ids.Some? ==>
      r == Ok(AttendanceRouter.Reply(true, "자동 출석 대상이 " + ListRepr(ids.value) + "로 갱신되었습니다."))
      && db.enrolments == AttendanceRouter.EnabledFor(old(db.enrolments), userId, ids.value)
  {
    if !caller.isAdmin {
      return HttpError(403, Forbidden);
    }
    if ids.None? {
      return Ok(AttendanceRouter.Reply(false, "lecture_ids는 리스트여야 합니다."));
    }
    db.enrolments := AttendanceRouter.AllOff(db.enrolments, userId);
    if ids.value != [] {
      db.enrolments := AttendanceRouter.OnFor(db.enrolments, userId, ids.value);
    }
    r := Ok(AttendanceRouter.Reply(true, "자동 출석 대상이 " + ListRepr(ids.value) + "로 갱신되었습니다."));
  }

  // ---------------------------------------------------------------------
  // GET /runner_status/all
  // ---------------------------------------------------------------------

  datatype Watched = Watched(userId: int, userName: string, studentId: Option<string>, lectureId: int,
                             lectureName: string, lectureCode: string, lectureSection: string, platoCourseId: Option<int>)

  /** One enabled row's entry, or nothing when its user or its lecture is missing. */
  function WatchedOf(row: Enrolment, users: seq<User>, lectures: seq<Lecture>): Option<Watched>
    reads users
  {
    match (FindUser(users, row.userId), FindLecture(lectures, row.lectureId))
    case (Some(u), Some(l)) => Some(Watched(u.id, u.name, u.studentId, l.id, l.name, l.code, l.section, l.platoCourseId))
    case _ => None
  }

  /** The entries of the rows, in order, skipping the rows whose user or lecture is missing. */
  function WatchedRows(rows: seq<Enrolment>, users: seq<User>, lectures: seq<Lecture>): seq<Watched>
    reads users
  {
    if rows == [] then []
    else
      var front := WatchedRows(rows[..|rows| - 1], users, lectures);
      match WatchedOf(rows[|rows| - 1], users, lectures)
      case Some(w) => front + [w]
      case None => front
  }

  datatype RunnerStatus = RunnerStatus(count: nat, data: seq<Watched>)

  method AllRunnerStatus(db: Db, caller: User) returns (r: Response<RunnerStatus>)
    ensures !caller.isAdmin ==> r == HttpError(403, Forbidden)
    ensures caller.isAdmin ==> (r.Ok? && r.value.count == |r.value.data|
      && r.value.data == WatchedRows(Runner.EnabledRows(db.enrolments), db.users, db.lectures))
  {
    if !caller.isAdmin {
      return HttpError(403, Forbidden);
    }
    var rows := Runner.EnabledRows(db.enrolments);
    var result := [];
    var i := 0;
    while i < |rows|
      invariant 0 <= i <= |rows|
      invariant result == WatchedRows(rows[..i], db.users, db.lectures)
    {
      assert rows[..i + 1][..i] == rows[..i];
      var w := WatchedOf(rows[i], db.users, db.lectures);
      if w.Some? {
        result := result + [w.value];
      }
      i := i + 1;
    }
    assert rows[..|rows|] == rows;
    r := Ok(RunnerStatus(|result|, result));
  }

  /**
   * Each entry comes from a row whose user and lecture both exist, and each
   * such row gives an entry; there are never more entries than rows.
   */
  lemma {:induction false} WatchedRowsMeaning(rows: seq<Enrolment>, users: seq<User>, lectures: seq<Lecture>)
    ensures var r := WatchedRows(rows, users, lectures);
      |r| <= |rows|
      && (forall k :: 0 <= k < |r| ==> exists j :: (0 <= j < |rows| && WatchedOf(rows[j], users, lectures) == Some(r[k])))
      && (forall j :: 0 <= j < |rows| && WatchedOf(rows[j], users, lectures).Some? ==>
            WatchedOf(rows[j], users, lectures).value in r)
  {
    if rows != [] {
      var front := rows[..|rows| - 1];
      WatchedRowsMeaning(front, users, lectures);
      assert forall j :: 0 <= j < |front| ==> front[j] == rows[j];
    }
  }

  /** An entry exists exactly for the rows whose user and lecture are both found, with their ids. */
  lemma WatchedOfMeaning(row: Enrolment, users: seq<User>, lectures: seq<Lecture>)
    ensures WatchedOf(row, users, lectures).Some? <==>
      (exists u :: u in users && u.id == row.userId) && (exists l :: l in lectures && l.id == row.lectureId)
    ensures WatchedOf(row, users, lectures).Some? ==>
      WatchedOf(row, users, lectures).value.userId == row.userId && WatchedOf(row, users, lectures).value.lectureId == row.lectureId
  {
  }

  /**
   * The outer loop as the code runs it: the session does not flush before
   * a query, so every slot checks its draws only against the rows stored
   * before the call.
   */
  function SlotsUnflushed(table: seq<ProKey>, keys: nat -> string, next: nat, slots: nat, tries: nat): (r: seq<string>)
    ensures |r| <= slots && forall k :: 0 <= k < |r| ==> !HasKey(table, r[k])
    decreases slots
  {
    if slots == 0 then []
    else
      var p := Slot(table, keys, next, tries);
      SlotMeaning(table, keys, next, tries);
      (if p.key.Some? then [p.key.value] else []) + SlotsUnflushed(table, keys, p.next, slots - 1, tries)
  }

  /**
   * Two slots whose draws give the same key, on an empty table: as written
   * both slots add it, so the rows to commit repeat a key of the unique
   * column.
   */
  lemma UnflushedSlotsDuplicate()
    ensures var c := SlotsUnflushed([], (k: nat) => "PRO-0000-AAAA", 0, 2, SlotTries);
      c == ["PRO-0000-AAAA", "PRO-0000-AAAA"] && !UniqueKeys(NewRows(c))
  {
    var keys := (k: nat) => "PRO-0000-AAAA";
    assert Slot([], keys, 0, SlotTries) == Pick(Some("PRO-0000-AAAA"), 1);
    assert Slot([], keys, 1, SlotTries) == Pick(Some("PRO-0000-AAAA"), 2);
    var c := SlotsUnflushed([], keys, 0, 2, SlotTries);
    assert c == ["PRO-0000-AAAA"] + SlotsUnflushed([], keys, 1, 1, SlotTries);
    assert NewRows(c)[0].key == NewRows(c)[1].key;
  }
}
