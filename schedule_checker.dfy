/**
 * Whether a lecture is in session at a given Korean wall-clock reading:
 * same weekday, and the time of day inside the slot with both ends included.
 */
module ScheduleChecker {
  import opened TimeOfDay
  import opened Models

  /** `is_currently_in_lecture(schedule)` with the reading of `now_kst()` passed as `now`. */
  predicate InLecture(s: Schedule, now: LocalNow)
  {
    s.weekday == now.weekday && s.start * MicrosPerMinute <= now.micros <= s.end * MicrosPerMinute
  }

  /**
   * Read at minute granularity: a reading inside the slot falls in a minute
   * from the start to the end, every instant of a minute from the start up to
   * but excluding the end minute is inside, and the end minute is inside only
   * at its first microsecond.
   */
  lemma InLectureMinutes(s: Schedule, now: LocalNow)
    ensures InLecture(s, now) ==> s.weekday == now.weekday && s.start <= MinuteOf(now) <= s.end
    ensures s.weekday == now.weekday && s.start <= MinuteOf(now) < s.end ==> InLecture(s, now)
    ensures MinuteOf(now) == s.end && s.weekday == now.weekday && s.start <= s.end ==>
      (InLecture(s, now) <==> now.micros == s.end * MicrosPerMinute)
  {
  }

  /** Both ends of the slot count as in session. */
  lemma InLectureEndpoints(s: Schedule, w: Weekday)
    requires s.weekday == w && s.start <= s.end
    ensures InLecture(s, LocalNow(w, s.start * MicrosPerMinute))
    ensures InLecture(s, LocalNow(w, s.end * MicrosPerMinute))
  {
  }

  /** Another weekday is never in session, and a slot that ends before it starts never is: nothing wraps. */
  lemma InLectureNever(s: Schedule, now: LocalNow)
    ensures s.weekday != now.weekday ==> !InLecture(s, now)
    ensures s.start > s.end ==> !InLecture(s, now)
  {
  }
}
