/**
 * The duplicate-attendance window: the Korean calendar day of the current
 * instant, with both of its ends read as UTC instants.
 */
module AttendanceWindow {
  import opened TimeOfDay
  import opened Models

  /** The Korean calendar day of an instant, counted from the epoch. */
  function KstDay(t: int): int
  {
    (t + KstOffset) / MicrosPerDay
  }

  /**
   * `already_attended_today(db, user_id, lecture_id)`, in both the runner
   * and the attendance endpoints: a record of the pair falls in the window
   * from the KST midnight that starts today, included, to the next one,
   * excluded, both read as UTC instants.
   */
  predicate AttendedToday(attendance: seq<AttendanceLog>, userId: int, lectureId: int, nowUtc: int)
  {
    exists k :: 0 <= k < |attendance| && attendance[k].userId == userId && attendance[k].lectureId == lectureId
      && KstMidnightUtc(nowUtc) <= attendance[k].timestamp < KstMidnightUtc(nowUtc) + MicrosPerDay
  }

  /** The window holds exactly the instants of the same Korean calendar day. */
  lemma TodayWindow(nowUtc: int, t: int)
    ensures KstMidnightUtc(nowUtc) <= t < KstMidnightUtc(nowUtc) + MicrosPerDay <==> KstDay(t) == KstDay(nowUtc)
  {
    var q := KstDay(nowUtc);
    assert KstMidnightUtc(nowUtc) == q * MicrosPerDay - KstOffset;
    var x := t + KstOffset;
    if KstDay(t) == q {
      assert q * MicrosPerDay <= x < q * MicrosPerDay + MicrosPerDay;
    }
    if q * MicrosPerDay <= x < q * MicrosPerDay + MicrosPerDay {
      DivBetween(x, q);
    }
  }

  /** An instant inside the `q`-th day counts as day `q`. */
  lemma DivBetween(x: int, q: int)
    requires q * MicrosPerDay <= x < q * MicrosPerDay + MicrosPerDay
    ensures x / MicrosPerDay == q
  {
    var r := x - q * MicrosPerDay;
    assert x == q * MicrosPerDay + r && 0 <= r < MicrosPerDay;
  }

  /** Records of other pairs, or of other Korean days, never count. */
  lemma AttendedTodayMeaning(attendance: seq<AttendanceLog>, userId: int, lectureId: int, nowUtc: int)
    ensures AttendedToday(attendance, userId, lectureId, nowUtc) <==>
      exists k :: 0 <= k < |attendance| && attendance[k].userId == userId && attendance[k].lectureId == lectureId
        && KstDay(attendance[k].timestamp) == KstDay(nowUtc)
  {
    forall k | 0 <= k < |attendance|
      ensures KstMidnightUtc(nowUtc) <= attendance[k].timestamp < KstMidnightUtc(nowUtc) + MicrosPerDay
          <==> KstDay(attendance[k].timestamp) == KstDay(nowUtc)
    {
      TodayWindow(nowUtc, attendance[k].timestamp);
    }
  }
}
