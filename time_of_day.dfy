/**
 * Times of day and the clock. A `datetime.time` built from an "HH:MM" string
 * is a whole minute of the day; an instant is a count of microseconds since
 * the Unix epoch in UTC; the wall clock of a place is a weekday (Monday is
 * 0, as `datetime.weekday()` numbers them) and the microseconds since that
 * day's midnight. Korea Standard Time is UTC+9 all year.
 */
module TimeOfDay {
  import opened Common

  /** A whole minute of the day, 00:00 to 23:59. */
  type Minute = m: int | 0 <= m < 1440

  type Weekday = w: int | 0 <= w < 7

  type MicroOfDay = u: int | 0 <= u < 86_400_000_000

  /** A wall-clock reading: weekday and time of day to the microsecond. */
  datatype LocalNow = LocalNow(weekday: Weekday, micros: MicroOfDay)

  const MicrosPerMinute: int := 60_000_000
  const MicrosPerDay: int := 86_400_000_000
  const KstOffset: int := 32_400_000_000

  /** `t.strftime("%H:%M")`: two zero-padded fields around a colon. */
  function FormatHM(m: Minute): (s: string)
    ensures |s| == 5 && s[2] == ':'
    ensures AllDigits(s[..2]) && DigitsValue(s[..2]) == m / 60
    ensures AllDigits(s[3..]) && DigitsValue(s[3..]) == m % 60
  {
    var s := Pad2(m / 60) + ":" + Pad2(m % 60);
    assert s[..2] == Pad2(m / 60) && s[3..] == Pad2(m % 60);
    s
  }

  /** The hour field `%H` of `strptime` accepts: `2[0-3]`, `[0-1]\d` or one digit. */
  predicate HourField(h: string)
  {
    (|h| == 1 && IsDigit(h[0])) || (|h| == 2 && AllDigits(h) && DigitsValue(h) <= 23)
  }

  /** The minute field `%M` of `strptime` accepts: `[0-5]\d` or one digit. */
  predicate MinuteField(m: string)
  {
    (|m| == 1 && IsDigit(m[0])) || (|m| == 2 && AllDigits(m) && DigitsValue(m) <= 59)
  }

  lemma FieldBounds(f: string)
    requires |f| == 1 || |f| == 2
    requires AllDigits(f)
    ensures |f| == 1 ==> DigitsValue(f) <= 9
    ensures DigitsValue(f) <= 99
  {
    if |f| == 1 {
      assert f[..0] == [];
    } else {
      assert f[..1][..0] == [];
      assert DigitsValue(f[..1]) == DigitValue(f[0]);
    }
  }

  /** The minute that a field pair names. */
  function FieldsMinute(h: string, m: string): Minute
    requires HourField(h) && MinuteField(m)
  {
    FieldBounds(h);
    FieldBounds(m);
    DigitsValue(h) * 60 + DigitsValue(m)
  }

  /**
   * `datetime.strptime(s, "%H:%M")` read as a time of day: an hour field, a
   * colon and a minute field that end the string; `None` is the ValueError.
   */
  function ParseHM(s: string): Option<Minute>
  {
    if |s| >= 2 && s[1] == ':' && HourField(s[..1]) && MinuteField(s[2..]) then
      Some(FieldsMinute(s[..1], s[2..]))
    else if |s| >= 3 && s[2] == ':' && HourField(s[..2]) && MinuteField(s[3..]) then
      Some(FieldsMinute(s[..2], s[3..]))
    else
      None
  }

  /** Formatting a time and parsing it back gives the same time. */
  lemma ParseFormat(m: Minute)
    ensures ParseHM(FormatHM(m)) == Some(m)
  {
    var s := FormatHM(m);
    assert !IsDigit(':');
    assert HourField(s[..2]);
    assert MinuteField(s[3..]);
  }

  /** Python's `<=` on strings: lexicographic order of code points. */
  predicate LexLe(a: string, b: string)
    decreases |a|
  {
    a == [] || (b != [] && (a[0] < b[0] || (a[0] == b[0] && LexLe(a[1..], b[1..]))))
  }

  /**
   * Comparing two formatted times as strings orders them as the times
   * themselves: equal-width, zero-padded fields sort like the numbers.
   */
  lemma FormatOrder(a: Minute, b: Minute)
    ensures LexLe(FormatHM(a), FormatHM(b)) <==> a <= b
  {
    var s, t := FormatHM(a), FormatHM(b);
    assert s == [DigitChar(a / 60 / 10), DigitChar(a / 60 % 10), ':', DigitChar(a % 60 / 10), DigitChar(a % 60 % 10)];
    assert t == [DigitChar(b / 60 / 10), DigitChar(b / 60 % 10), ':', DigitChar(b % 60 / 10), DigitChar(b % 60 % 10)];
    ClockLex(s, t);
    MixedRadix(a, b);
  }

  /** Two five-character "HH:MM" strings compare by their four digits in turn. */
  lemma ClockLex(s: string, t: string)
    requires |s| == 5 && |t| == 5 && s[2] == ':' && t[2] == ':'
    ensures LexLe(s, t) <==>
      (s[0] < t[0] || (s[0] == t[0] && (s[1] < t[1] || (s[1] == t[1] &&
      (s[3] < t[3] || (s[3] == t[3] && s[4] <= t[4])))))) 
  {
    assert LexLe(s[4..], t[4..]) <==> s[4] <= t[4] by {
      assert s[4..][1..] == [];
    }
    assert LexLe(s[3..], t[3..]) <==> (s[3] < t[3] || (s[3] == t[3] && LexLe(s[4..], t[4..]))) by {
      assert s[3..][1..] == s[4..] && t[3..][1..] == t[4..];
    }
    assert LexLe(s[2..], t[2..]) <==> LexLe(s[3..], t[3..]) by {
      assert s[2..][1..] == s[3..] && t[2..][1..] == t[3..];
    }
    assert LexLe(s[1..], t[1..]) <==> (s[1] < t[1] || (s[1] == t[1] && LexLe(s[2..], t[2..]))) by {
      assert s[1..][1..] == s[2..] && t[1..][1..] == t[2..];
    }
  }

  /** Minutes of the day order like their four decimal digits, read left to right. */
  lemma MixedRadix(a: Minute, b: Minute)
    ensures a <= b <==>
      (a / 60 / 10 < b / 60 / 10 || (a / 60 / 10 == b / 60 / 10 && (a / 60 % 10 < b / 60 % 10 ||
      (a / 60 % 10 == b / 60 % 10 && (a % 60 / 10 < b % 60 / 10 ||
      (a % 60 / 10 == b % 60 / 10 && a % 60 % 10 <= b % 60 % 10))))))
  {
    assert a == (a / 60 / 10) * 600 + (a / 60 % 10) * 60 + (a % 60 / 10) * 10 + a % 60 % 10;
    assert b == (b / 60 / 10) * 600 + (b / 60 % 10) * 60 + (b % 60 / 10) * 10 + b % 60 % 10;
  }

  /** The Korean wall clock at instant `nowUtc` (1970-01-01 was a Thursday, weekday 3). */
  function KstNow(nowUtc: int): LocalNow
  {
    var local := nowUtc + KstOffset;
    LocalNow((local / MicrosPerDay + 3) % 7, local % MicrosPerDay)
  }

  /** The minute of the day a wall-clock reading falls in, as `strftime("%H:%M")` truncates it. */
  function MinuteOf(now: LocalNow): Minute
  {
    now.micros / MicrosPerMinute
  }

  /**
   * The UTC instant of the midnight (KST) that starts the Korean day of
   * `nowUtc`: it is at or before `nowUtc`, less than a day before it, and on
   * the same Korean weekday.
   */
  function KstMidnightUtc(nowUtc: int): (t: int)
    ensures t <= nowUtc < t + MicrosPerDay
    ensures KstNow(t).micros == 0 && KstNow(t).weekday == KstNow(nowUtc).weekday
  {
    var q := (nowUtc + KstOffset) / MicrosPerDay;
    var t := q * MicrosPerDay - KstOffset;
    assert t + KstOffset == q * MicrosPerDay;
    DivExact(q);
    t
  }

  lemma DivExact(q: int)
    ensures (q * MicrosPerDay) / MicrosPerDay == q && (q * MicrosPerDay) % MicrosPerDay == 0
  {
  }

  /** The UTC instant at which minute `m` of the Korean day of `nowUtc` begins. */
  function KstTodayAt(nowUtc: int, m: Minute): int
  {
    KstMidnightUtc(nowUtc) + m * MicrosPerMinute
  }
}
