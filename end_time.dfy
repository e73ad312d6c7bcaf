/**
 * The end time of a lecture given its start and length: the start "HH:MM"
 * is read on 1900-01-01, the minutes are added, and the time of day of the
 * resulting `datetime` is formatted back. `datetime` covers 0001-01-01 to
 * 9999-12-31, so a sum that leaves that range raises OverflowError.
 */
module EndTime {
  import opened Common
  import opened TimeOfDay

  /** Whole days from 0001-01-01 to 1900-01-01 (`date(1900, 1, 1).toordinal() - 1`). */
  const DaysTo1900: int := 693595
  /** Whole days from 0001-01-01 to 10000-01-01 (`date(9999, 12, 31).toordinal()`). */
  const DaysToYear10000: int := 3652059

  /** Whether `1900-01-01 + start + minutes` stays inside the range of `datetime`. */
  predicate InDatetimeRange(start: Minute, minutes: int)
  {
    0 <= DaysTo1900 * 1440 + start + minutes < DaysToYear10000 * 1440
  }

  /**
   * `calc_end_time(start, minutes)`; `None` stands for the exception the
   * source raises (ValueError for a start that `strptime` rejects,
   * OverflowError for a sum outside the `datetime` range).
   */
  function CalcEndTime(start: string, minutes: int): Option<string>
  {
    match ParseHM(start)
    case None => None
    case Some(m) =>
      if InDatetimeRange(m, minutes) then Some(FormatHM((m + minutes) % 1440)) else None
  }

  /**
   * The end time exists exactly when the start parses and the sum is in range,
   * and it is the start moved forward by `minutes`, wrapping past midnight.
   */
  lemma CalcEndTimeMeaning(start: string, minutes: int)
    ensures CalcEndTime(start, minutes).Some? <==>
      ParseHM(start).Some? && InDatetimeRange(ParseHM(start).value, minutes)
    ensures CalcEndTime(start, minutes).Some? ==>
      ParseHM(CalcEndTime(start, minutes).value) == Some((ParseHM(start).value + minutes) % 1440)
  {
    if CalcEndTime(start, minutes).Some? {
      ParseFormat((ParseHM(start).value + minutes) % 1440);
    }
  }

  /** The end time of a start that reads as minute `m`. */
  lemma CalcEndTimeOf(start: string, m: Minute, minutes: int)
    requires ParseHM(start) == Some(m) && InDatetimeRange(m, minutes)
    ensures CalcEndTime(start, minutes) == Some(FormatHM((m + minutes) % 1440))
  {
  }

  /** A zero length ends where it starts, written in the canonical zero-padded "HH:MM" form. */
  lemma CalcEndTimeZero(start: string, m: Minute)
    requires ParseHM(start) == Some(m)
    ensures CalcEndTime(start, 0) == Some(FormatHM(m))
  {
    assert (m + 0) % 1440 == m;
    CalcEndTimeOf(start, m, 0);
  }

  /** Moving by `a` minutes and then by `b` minutes is moving by `a + b` minutes. */
  lemma CalcEndTimeCompose(start: string, a: int, b: int)
    requires CalcEndTime(start, a).Some? && CalcEndTime(start, a + b).Some?
    requires CalcEndTime(CalcEndTime(start, a).value, b).Some?
    ensures CalcEndTime(CalcEndTime(start, a).value, b) == CalcEndTime(start, a + b)
  {
    var m := ParseHM(start).value;
    var mid := (m + a) % 1440;
    ModShift(m + a, b);
    assert (mid + b) % 1440 == (m + (a + b)) % 1440;
    CalcEndTimeMeaning(start, a);
    var s := CalcEndTime(start, a).value;
    assert ParseHM(s) == Some(mid);
    CalcEndTimeOf(s, mid, b);
    CalcEndTimeOf(start, m, a + b);
  }

  lemma ModShift(x: int, b: int)
    ensures (x % 1440 + b) % 1440 == (x + b) % 1440
  {
    var q := x / 1440;
    assert x + b == q * 1440 + (x % 1440 + b);
    ModMultiple(q, x % 1440 + b);
  }

  lemma ModMultiple(k: int, y: int)
    ensures (k * 1440 + y) % 1440 == y % 1440
  {
    var q, r := y / 1440, y % 1440;
    assert k * 1440 + y == (k + q) * 1440 + r;
  }

  /** A length of one day leaves the time of day unchanged (the sum stays in range). */
  lemma CalcEndTimeFullDay(start: string, m: Minute)
    requires ParseHM(start) == Some(m)
    ensures CalcEndTime(start, 1440) == Some(FormatHM(m))
  {
    ModMultiple(1, m);
    assert (m + 1440) % 1440 == m;
    CalcEndTimeOf(start, m, 1440);
  }

  /** A length that runs past year 9999 raises instead of wrapping. */
  lemma CalcEndTimeOverflow(start: string, minutes: int)
    requires ParseHM(start).Some?
    requires minutes >= DaysToYear10000 * 1440
    ensures CalcEndTime(start, minutes) == None
  {
  }
}
