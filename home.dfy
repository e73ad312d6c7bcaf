/**
 * The home page: what it loads when a jwt is present, the countdown to the
 * next lecture in hours, minutes and seconds, and the lecture's start as a
 * 12-hour Korean time label.
 */
module Home {
  import opened Common
  import opened ClientAuth
  import AuthRouter
  import AttendanceRouter

  const InClass := "수업중입니다!"
  const StatusUnavailable := "출석 정보를 불러올 수 없습니다."

  /** `Math.max(0, Math.floor((start - now) / 1000))`, both instants in milliseconds. */
  function Diff(startMs: int, nowMs: int): (d: nat)
    ensures d == 0 <==> startMs - nowMs < 1000
    ensures d > 0 ==> d * 1000 <= startMs - nowMs < d * 1000 + 1000
  {
    var seconds := (startMs - nowMs) / 1000;
    if seconds > 0 then seconds else 0
  }

  /** The countdown's hours, minutes and seconds. */
  datatype Hms = Hms(hours: nat, minutes: nat, seconds: nat)

  function Split(diff: nat): Hms
  {
    Hms(diff / 3600, (diff % 3600) / 60, diff % 60)
  }

  /** The three parts add back up to the difference, minutes and seconds stay below sixty, and they are the only such parts. */
  lemma SplitMeaning(diff: nat, h: nat, m: nat, s: nat)
    ensures var t := Split(diff);
      t.hours * 3600 + t.minutes * 60 + t.seconds == diff && t.minutes < 60 && t.seconds < 60
    ensures h * 3600 + m * 60 + s == diff && m < 60 && s < 60 ==> Split(diff) == Hms(h, m, s)
  {
    var rem := diff % 3600;
    assert diff == diff / 3600 * 3600 + rem;
    assert rem == rem / 60 * 60 + rem % 60;
    if h * 3600 + m * 60 + s == diff && m < 60 && s < 60 {
      HoursUnique(diff, h, m * 60 + s);
      MinutesUnique(m * 60 + s, m, s);
    }
  }

  lemma HoursUnique(x: nat, q: nat, r: nat)
    requires r < 3600 && x == q * 3600 + r
    ensures x / 3600 == q && x % 3600 == r
  {
  }

  lemma MinutesUnique(x: nat, q: nat, r: nat)
    requires r < 60 && x == q * 60 + r
    ensures x / 60 == q && x % 60 == r
  {
  }

  /** `timeLeft` at a tick: empty without a start time, then the remaining time or "수업중입니다!". */
  function CountdownText(startMs: Option<int>, nowMs: int): string
  {
    if startMs.None? then ""
    else
      var d := Diff(startMs.value, nowMs);
      if d > 0 then
        var t := Split(d);
        "다음 강의까지 " + NatToString(t.hours) + "시간 " + NatToString(t.minutes) + "분 "
        + NatToString(t.seconds) + "초 남았습니다."
      else InClass
  }

  /** The countdown shows "수업중입니다!" exactly when less than a second is left, and is empty exactly without a start time. */
  lemma CountdownMeaning(startMs: Option<int>, nowMs: int)
    ensures CountdownText(startMs, nowMs) == "" <==> startMs.None?
    ensures CountdownText(startMs, nowMs) == InClass <==> startMs.Some? && startMs.value - nowMs < 1000
  {
    var c := CountdownText(startMs, nowMs);
    if startMs.Some? && Diff(startMs.value, nowMs) > 0 {
      assert c[0] == '다' && InClass[0] == '수';
    }
  }

  /** `hour % 12 === 0 ? 12 : hour % 12`. */
  function Hour12(hour: nat): nat
  {
    if hour % 12 == 0 then 12 else hour % 12
  }

  /** `isAM ? '오전' : '오후'`. */
  function Period(hour: nat): string
  {
    if hour < 12 then "오전" else "오후"
  }

  /** `` `${period} ${hour12}시${minute > 0 ? ` ${minute}분` : ''}` ``. */
  function HourLabel(hour: nat, minute: nat): string
  {
    Period(hour) + " " + NatToString(Hour12(hour)) + "시" + (if minute > 0 then " " + NatToString(minute) + "분" else "")
  }

  /**
   * For the hours of a day: the 12-hour number lies in 1..12, the period is
   * 오전 exactly before noon, the two together give back the hour, and the
   * minutes appear exactly when they are not zero.
   */
  lemma HourLabelMeaning(hour: nat, minute: nat)
    requires hour < 24
    ensures 1 <= Hour12(hour) <= 12
    ensures Period(hour) == "오전" <==> hour < 12
    ensures hour == (if Period(hour) == "오전" then 0 else 12) + Hour12(hour) % 12
    ensures HourLabel(hour, minute)[|HourLabel(hour, minute)| - 1] == '시' <==> minute == 0
  {
    var l := HourLabel(hour, minute);
    if minute > 0 {
      assert l[|l| - 1] == '분';
    }
  }

  /** The next-lecture answer as the page reads it; the start is in milliseconds. */
  datatype NextReply = NextReply(status: string, name: string, startMs: Option<int>)

  /** The page's state. */
  class Page {
    var userName: string
    var nextLecture: Option<NextReply>
    var attendanceStatus: Option<AttendanceRouter.Status>

    constructor ()
      ensures userName == "" && nextLecture == None && attendanceStatus == None
    {
      userName, nextLecture, attendanceStatus := "", None, None;
    }

    /**
     * The loading effect: without a jwt everything is reset and nothing is
     * requested; otherwise the name is taken from a non-empty `/me` answer,
     * the next lecture from an answer whose status is not `none`, and the
     * attendance status from its answer, or a closed status with an error
     * message when that request threw.
     */
    method Load(jwt: Option<string>, me: Fetched<AuthRouter.Me>, next: Fetched<NextReply>,
                status: Fetched<AttendanceRouter.Status>) returns (requested: bool)
      modifies this
      ensures requested <==> Truthy(jwt)
      ensures !requested ==> userName == "" && nextLecture == None && attendanceStatus == None
      ensures requested ==>
                userName == (if me.Returned? && me.json.Some? && me.json.value.name != "" then me.json.value.name else old(userName))
                && nextLecture == (if next.Returned? && next.json.Some? && next.json.value.status != "none" then next.json
                                   else old(nextLecture))
                && attendanceStatus == (if status.Threw? then Some(AttendanceRouter.Status(false, None, StatusUnavailable)) else status.json)
    {
      if !Truthy(jwt) {
        userName, nextLecture, attendanceStatus := "", None, None;
        return false;
      }
      if me.Returned? && me.json.Some? && me.json.value.name != "" {
        userName := me.json.value.name;
      }
      if next.Returned? && next.json.Some? && next.json.value.status != "none" {
        nextLecture := next.json;
      }
      if status.Threw? {
        attendanceStatus := Some(AttendanceRouter.Status(false, None, StatusUnavailable));
      } else {
        attendanceStatus := status.json;
      }
      return true;
    }
  }
}
