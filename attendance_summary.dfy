/**
 * The attendance summary of one lecture under the two-thirds rule, and the
 * record lines of the analysis prompt. A record carries its date as the
 * text the portal shows; a record whose date `strptime("%Y-%m-%d")`
 * rejects is not counted at all. "Today" is a parameter.
 */
module AttendanceSummary {
  import opened Common

  datatype Record = Record(date: string, period: string, status: string)

  datatype Date = Date(year: int, month: int, day: int)

  /** The summary dictionary; `message` is the "현재 상황" text. */
  datatype Summary = Summary(
    total: int, current: int, required: int, remaining: int, allowed: int, message: string)

  const FailMessage: string := "당신은 이미 F 확정입니다..."

  predicate IsLeap(y: int)
  {
    (y % 4 == 0 && y % 100 != 0) || y % 400 == 0
  }

  function DaysInMonth(y: int, m: int): int
    requires 1 <= m <= 12
  {
    if m == 2 then (if IsLeap(y) then 29 else 28)
    else if m == 4 || m == 6 || m == 9 || m == 11 then 30
    else 31
  }

  /** A calendar date `datetime.date` accepts: years 1 to 9999, a real month and day. */
  predicate ValidDate(d: Date)
  {
    1 <= d.year <= 9999 && 1 <= d.month <= 12 && 1 <= d.day <= DaysInMonth(d.year, d.month)
  }

  /** The `%m` field: `1[0-2]`, `0[1-9]` or `[1-9]`. */
  predicate MonthField(s: string)
  {
    (|s| == 2 && s[0] == '1' && '0' <= s[1] <= '2')
    || (|s| == 2 && s[0] == '0' && '1' <= s[1] <= '9')
    || (|s| == 1 && '1' <= s[0] <= '9')
  }

  /** The `%d` field: `3[01]`, `[12]\d`, `0[1-9]`, `[1-9]` or a space and `[1-9]`. */
  predicate DayField(s: string)
  {
    (|s| == 2 && s[0] == '3' && (s[1] == '0' || s[1] == '1'))
    || (|s| == 2 && (s[0] == '1' || s[0] == '2') && IsDigit(s[1]))
    || (|s| == 2 && s[0] == '0' && '1' <= s[1] <= '9')
    || (|s| == 1 && '1' <= s[0] <= '9')
    || (|s| == 2 && s[0] == ' ' && '1' <= s[1] <= '9')
  }

  /** The value of a day field (a leading space reads as nothing). */
  function DayValue(s: string): nat
    requires DayField(s)
  {
    if s[0] == ' ' then DigitValue(s[1]) else DigitsValue(s)
  }

  /** A date from its three fields, if the calendar has it. */
  function DateOf(y: string, m: string, d: string): (r: Option<Date>)
    requires AllDigits(y) && MonthField(m) && DayField(d)
    ensures r.Some? ==> ValidDate(r.value)
  {
    var date := Date(DigitsValue(y), DigitsValue(m), DayValue(d));
    if ValidDate(date) then Some(date) else None
  }

  /**
   * `datetime.strptime(s, "%Y-%m-%d").date()`: four digits, a dash, a month
   * field, a dash and a day field that ends the string, naming a real date;
   * `None` is the ValueError.
   */
  function ParseDate(s: string): (r: Option<Date>)
    ensures r.Some? ==> ValidDate(r.value)
  {
    if |s| < 7 || !AllDigits(s[..4]) || s[4] != '-' then None
    else if |s| >= 8 && MonthField(s[5..7]) && s[7] == '-' && DayField(s[8..]) then
      DateOf(s[..4], s[5..7], s[8..])
    else if MonthField(s[5..6]) && s[6] == '-' && DayField(s[7..]) then
      DateOf(s[..4], s[5..6], s[7..])
    else None
  }

  /** `d.strftime("%Y-%m-%d")`: zero-padded four-digit year, two-digit month and day. */
  function FormatDate(d: Date): (s: string)
    requires ValidDate(d)
    ensures |s| == 10 && s[4] == '-' && s[7] == '-'
  {
    Pad2(d.year / 100) + Pad2(d.year % 100) + "-" + Pad2(d.month) + "-" + Pad2(d.day)
  }

  /** Four digits read as the hundreds pair and the units pair. */
  lemma FourDigits(a: nat, b: nat)
    requires a < 100 && b < 100
    ensures AllDigits(Pad2(a) + Pad2(b)) && DigitsValue(Pad2(a) + Pad2(b)) == a * 100 + b
  {
    var s := Pad2(a) + Pad2(b);
    assert s[..3] == Pad2(a) + [s[2]] && s[..2] == Pad2(a);
    assert s[..3][..2] == Pad2(a);
    assert DigitsValue(s[..3]) == a * 10 + DigitValue(s[2]);
    assert DigitsValue(Pad2(b)) == DigitValue(s[2]) * 10 + DigitValue(s[3]) by {
      assert Pad2(b)[..1][..0] == [];
      assert Pad2(b)[..1] == [s[2]];
    }
  }

  /** Every valid date written as `%Y-%m-%d` parses back to itself. */
  lemma ParseFormatDate(d: Date)
    requires ValidDate(d)
    ensures ParseDate(FormatDate(d)) == Some(d)
  {
    var s := FormatDate(d);
    var y := Pad2(d.year / 100) + Pad2(d.year % 100);
    FourDigits(d.year / 100, d.year % 100);
    assert s[..4] == y && s[5..7] == Pad2(d.month) && s[8..] == Pad2(d.day);
    assert MonthField(s[5..7]);
    assert DayField(s[8..]);
  }

  lemma DigitsOfYear(y: string, a: char, b: char, c: char, e: char)
    requires y == [a, b, c, e] && IsDigit(a) && IsDigit(b) && IsDigit(c) && IsDigit(e)
    ensures DigitsValue(y) == DigitValue(a) * 1000 + DigitValue(b) * 100 + DigitValue(c) * 10 + DigitValue(e)
  {
    assert y[..3] == [a, b, c];
    DigitsOfPair([a, b], a, b);
    assert [a, b, c][..2] == [a, b];
    assert DigitsValue([a, b, c]) == DigitsValue([a, b]) * 10 + DigitValue(c);
    assert DigitsValue(y) == DigitsValue([a, b, c]) * 10 + DigitValue(e);
  }

  lemma DigitsOfPair(s: string, a: char, b: char)
    requires s == [a, b] && IsDigit(a) && IsDigit(b)
    ensures DigitsValue(s) == DigitValue(a) * 10 + DigitValue(b)
  {
    assert s[..1] == [a] && [a][..0] == [];
    assert DigitsValue([a]) == DigitValue(a);
    assert DigitsValue(s) == DigitsValue([a]) * 10 + DigitValue(b);
  }

  /** February 29th exists in a leap year only. */
  lemma ParseDateLeap(text: string, other: string)
    requires text == "2024-02-29" && other == "2023-02-29"
    ensures ParseDate(text) == Some(Date(2024, 2, 29)) && ParseDate(other) == None
  {
    LeapDay(text);
    NonLeapDay(other);
  }

  lemma LeapDay(text: string)
    requires text == "2024-02-29"
    ensures ParseDate(text) == Some(Date(2024, 2, 29))
  {
    assert text[..4] == "2024" && text[5..7] == "02" && text[8..] == "29";
    DigitsOfYear("2024", '2', '0', '2', '4');
    DigitsOfPair("02", '0', '2');
    DigitsOfPair("29", '2', '9');
    assert MonthField("02") && DayField("29") && text[7] == '-';
    assert DateOf("2024", "02", "29") == Some(Date(2024, 2, 29));
  }

  lemma NonLeapDay(other: string)
    requires other == "2023-02-29"
    ensures ParseDate(other) == None
  {
    assert other[..4] == "2023" && other[5..7] == "02" && other[8..] == "29";
    DigitsOfYear("2023", '2', '0', '2', '3');
    DigitsOfPair("02", '0', '2');
    DigitsOfPair("29", '2', '9');
    assert MonthField("02") && DayField("29") && other[7] == '-';
    assert DateOf("2023", "02", "29") == None;
  }

  /** Year zero is refused; one-digit month and day fields are read. */
  lemma ParseDateShortFields(text: string, zero: string)
    requires text == "2024-1-5" && zero == "0000-01-01"
    ensures ParseDate(text) == Some(Date(2024, 1, 5)) && ParseDate(zero) == None
  {
    ShortFields(text);
    YearZero(zero);
  }

  lemma ShortFields(text: string)
    requires text == "2024-1-5"
    ensures ParseDate(text) == Some(Date(2024, 1, 5))
  {
    assert text[..4] == "2024" && text[5..6] == "1" && text[7..] == "5";
    DigitsOfYear("2024", '2', '0', '2', '4');
    assert "1"[..0] == [] && "5"[..0] == [];
    assert !MonthField(text[5..7]) && MonthField("1") && DayField("5") && text[6] == '-';
    assert DateOf("2024", "1", "5") == Some(Date(2024, 1, 5));
  }

  lemma YearZero(zero: string)
    requires zero == "0000-01-01"
    ensures ParseDate(zero) == None
  {
    assert zero[..4] == "0000" && zero[5..7] == "01" && zero[8..] == "01";
    DigitsOfYear("0000", '0', '0', '0', '0');
    DigitsOfPair("01", '0', '1');
    assert MonthField("01") && DayField("01") && zero[7] == '-';
    assert DateOf("0000", "01", "01") == None;
  }


  /** Trailing text after the day is refused. */
  lemma ParseDateTrailing(text: string)
    requires text == "2024-01-05 "
    ensures ParseDate(text) == None
  {
    assert text[8..] == "05 " && !DayField(text[8..]);
    assert text[5..6] == "0" && !MonthField(text[5..6]);
  }

  /** `date <= date`: calendar order. */
  predicate DateLe(a: Date, b: Date)
  {
    a.year < b.year || (a.year == b.year && (a.month < b.month || (a.month == b.month && a.day <= b.day)))
  }

  /** The statuses counted as attended: `출석` and `기록 없음`. */
  predicate CountsAsPresent(status: string)
  {
    status == "출석" || status == "기록 없음"
  }

  predicate Parsed(r: Record)
  {
    ParseDate(r.date).Some?
  }

  predicate IsPast(r: Record, today: Date)
  {
    Parsed(r) && DateLe(ParseDate(r.date).value, today)
  }

  predicate IsPresent(r: Record, today: Date)
  {
    IsPast(r, today) && CountsAsPresent(r.status)
  }

  /** Records whose date parses. */
  function Total(rs: seq<Record>): nat
  {
    if rs == [] then 0 else Total(rs[..|rs| - 1]) + (if Parsed(rs[|rs| - 1]) then 1 else 0)
  }

  /** Parsed records dated today or earlier. */
  function Past(rs: seq<Record>, today: Date): nat
  {
    if rs == [] then 0 else Past(rs[..|rs| - 1], today) + (if IsPast(rs[|rs| - 1], today) then 1 else 0)
  }

  /** Past records whose status counts as attended. */
  function Present(rs: seq<Record>, today: Date): nat
  {
    if rs == [] then 0 else Present(rs[..|rs| - 1], today) + (if IsPresent(rs[|rs| - 1], today) then 1 else 0)
  }

  /** Attended, past and counted classes are nested: current <= past <= total. */
  lemma {:induction false} CountsOrdered(rs: seq<Record>, today: Date)
    ensures Present(rs, today) <= Past(rs, today) <= Total(rs)
  {
    if rs != [] {
      CountsOrdered(rs[..|rs| - 1], today);
    }
  }

  /** A record whose date does not parse changes none of the three counts. */
  lemma UnparsedIgnored(rs: seq<Record>, r: Record, today: Date)
    requires !Parsed(r)
    ensures Total(rs + [r]) == Total(rs) && Past(rs + [r], today) == Past(rs, today)
    ensures Present(rs + [r], today) == Present(rs, today)
  {
    assert (rs + [r])[..|rs|] == rs;
  }

  /**
   * The arithmetic after the loop. `required` is two thirds of the total,
   * rounded down; `remaining` the classes still to come.
   */
  function Decide(total: int, past: int, current: int): Summary
  {
    var required := (2 * total) / 3;
    var remaining := total - past;
    var best := current + remaining;
    if best < required then Summary(total, current, required, remaining, 0, FailMessage)
    else
      var allowed := best - required;
      Summary(total, current, required, remaining, allowed, NatToString(allowed) + "번까지 결석 가능 (그 이상은 F)")
  }

  /**
   * What the summary means: the required count is two thirds of the total,
   * rounded down; when attending every remaining class still misses it, the
   * verdict is F and no absence is allowed; otherwise the verdict is not F
   * and `allowed` is how far the best reachable attendance lies above the
   * required count (it exceeds the classes left when enough are already
   * attended).
   */
  lemma DecideMeaning(total: int, past: int, current: int)
    requires 0 <= current <= past <= total
    ensures var s := Decide(total, past, current);
      s.total == total && s.current == current && s.remaining == total - past >= 0
      && 0 <= s.required <= total && 3 * s.required <= 2 * total < 3 * s.required + 3
    ensures var s := Decide(total, past, current);
      (current + s.remaining < s.required <==> s.message == FailMessage)
      && (current + s.remaining < s.required ==> s.allowed == 0)
      && (current + s.remaining >= s.required ==>
            0 <= s.allowed && current + s.remaining - s.allowed == s.required)
  {
    var s := Decide(total, past, current);
    if current + s.remaining >= s.required {
      assert s.message != FailMessage by {
        var digits := NatToString(s.allowed);
        assert s.message[|digits|] == '번';
        assert '번' !in FailMessage;
      }
    }
  }

  /** `summarize_attendance_with_redemption(records)` with `today` given. */
  method Summarize(records: seq<Record>, today: Date) returns (s: Summary)
    ensures s == Decide(Total(records), Past(records, today), Present(records, today))
  {
    var total, past, current := 0, 0, 0;
    var i := 0;
    while i < |records|
      invariant 0 <= i <= |records|
      invariant total == Total(records[..i]) && past == Past(records[..i], today)
      invariant current == Present(records[..i], today)
    {
      assert records[..i + 1][..i] == records[..i];
      var r := records[i];
      var parsed := ParseDate(r.date);
      if parsed.Some? {
        total := total + 1;
        if DateLe(parsed.value, today) {
          past := past + 1;
          if r.status == "출석" || r.status == "기록 없음" {
            current := current + 1;
          }
        }
      }
      i := i + 1;
    }
    assert records[..i] == records;
    s := Decide(total, past, current);
  }

  /** The prompt line of one record: `- date / period교시 / status`. */
  function RecordLine(r: Record): string
  {
    "- " + r.date + " / " + r.period + "교시 / " + r.status
  }

  /** The `lines` loop of `make_attendance_prompt`: one line per record, in record order. */
  method PromptLines(records: seq<Record>) returns (lines: seq<string>)
    ensures |lines| == |records|
    ensures forall k :: 0 <= k < |records| ==> lines[k] == RecordLine(records[k])
  {
    lines := [];
    var i := 0;
    while i < |records|
      invariant 0 <= i <= |records| && |lines| == i
      invariant forall k :: 0 <= k < i ==> lines[k] == RecordLine(records[k])
    {
      lines := lines + [RecordLine(records[i])];
      i := i + 1;
    }
  }

  /** The records block of the prompt: the lines joined by newlines. */
  function FormattedRecords(lines: seq<string>): string
  {
    Join(lines, "\n")
  }

  function NewlineCount(s: string): nat
  {
    if s == [] then 0 else NewlineCount(s[1..]) + (if s[0] == '\n' then 1 else 0)
  }

  lemma {:induction false} NewlineCountAppend(a: string, b: string)
    ensures NewlineCount(a + b) == NewlineCount(a) + NewlineCount(b)
    decreases |a|
  {
    if a != [] {
      assert (a + b)[1..] == a[1..] + b;
      NewlineCountAppend(a[1..], b);
    } else {
      assert a + b == b;
    }
  }

  /**
   * When no line holds a newline of its own, the records block has exactly
   * one newline between each two consecutive lines: one text line per record.
   */
  lemma {:induction false} FormattedLineCount(lines: seq<string>)
    requires lines != []
    requires forall k :: 0 <= k < |lines| ==> NewlineCount(lines[k]) == 0
    ensures NewlineCount(FormattedRecords(lines)) == |lines| - 1
    decreases |lines|
  {
    if |lines| > 1 {
      assert forall k :: 0 <= k < |lines| - 1 ==> lines[1..][k] == lines[k + 1];
      FormattedLineCount(lines[1..]);
      var rest := Join(lines[1..], "\n");
      assert FormattedRecords(lines) == lines[0] + "\n" + rest;
      assert NewlineCount(lines[0]) == 0;
      NewlineCountAppend(lines[0], "\n");
      NewlineCountAppend(lines[0] + "\n", rest);
      assert NewlineCount("\n") == 1 by { assert "\n"[1..] == []; }
    } else {
      assert FormattedRecords(lines) == lines[0];
      assert NewlineCount(lines[0]) == 0;
    }
  }
}
