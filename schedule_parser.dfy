/**
 * The timetable search result: each row is the list of its cell texts. A
 * row of the wanted course and section contributes the lecture slots that
 * its time cell lists, in four written forms:
 *   range    "화 15:00-19:00 401-526"
 *   minutes  "월 13:00(75) 313-106"
 *   cyber    "토 사이버수업"
 *   raw      "수 1.5/3 401-101" (the time token is kept as written)
 * The HTML extraction of the cells is not part of this model; a row is
 * given as the texts `get_text(strip=True)` returns.
 */
module ScheduleParser {
  import opened Common
  import opened TimeOfDay
  import opened EndTime

  /** A slot as the parser returns it; `weekday` is one of 월화수목금토. */
  datatype Block = Block(
    weekday: string, startTime: Option<string>, endTime: Option<string>,
    duration: Option<int>, location: string)

  datatype Form = RangeForm | MinuteForm | CyberForm | RawForm

  /** The weekday class `[월화수목금토]`: Sunday is not in it. */
  predicate IsWeekdayChar(c: char)
  {
    c == '월' || c == '화' || c == '수' || c == '목' || c == '금' || c == '토'
  }

  /** `\w`, read as ASCII letters and digits, the underscore and the Hangul syllables. */
  predicate IsWordChar(c: char)
  {
    IsAsciiLetter(c) || IsDigit(c) || c == '_' || IsHangul(c)
  }

  /** `[\w\-가-힣\d]`, the location class of the range and raw forms. */
  predicate IsWordLocChar(c: char)
  {
    IsWordChar(c) || c == '-'
  }

  /** `[가-힣A-Za-z0-9\-]`, the location class of the minutes form. */
  predicate IsPlainLocChar(c: char)
  {
    IsHangul(c) || IsAsciiLetter(c) || IsDigit(c) || c == '-'
  }

  /** `\d{2}:\d{2}` at position `j` of `t`. */
  predicate ClockAt(t: string, j: nat)
  {
    j + 5 <= |t| && IsDigit(t[j]) && IsDigit(t[j + 1]) && t[j + 2] == ':' && IsDigit(t[j + 3]) && IsDigit(t[j + 4])
  }

  predicate IsClock(s: string)
  {
    ClockAt(s, 0) && |s| == 5
  }

  lemma ClockSlice(t: string, j: nat)
    requires ClockAt(t, j)
    ensures IsClock(t[j..j + 5])
  {
  }

  /** A non-empty run of characters of class `p`. */
  predicate RunOf(s: string, p: char -> bool)
  {
    s != [] && forall k :: 0 <= k < |s| ==> p(s[k])
  }

  /** `\d+(?:\.\d+/\d+)?`: digits, optionally a dot, digits, a slash and digits. */
  ghost predicate IsTimeInfo(s: string)
  {
    RunOf(s, IsDigit)
    || exists i, j :: (0 < i < j < |s| && s[i] == '.' && s[j] == '/'
                      && RunOf(s[..i], IsDigit) && RunOf(s[i + 1..j], IsDigit) && RunOf(s[j + 1..], IsDigit))
  }

  /** The groups after the weekday of one match of each form. */
  ghost predicate RestOf(f: Form, g: seq<string>)
  {
    match f
    case RangeForm => |g| == 3 && IsClock(g[0]) && IsClock(g[1]) && RunOf(g[2], IsWordLocChar)
    case MinuteForm => |g| == 3 && IsClock(g[0]) && RunOf(g[1], IsDigit) && RunOf(g[2], IsPlainLocChar)
    case CyberForm => g == []
    case RawForm => |g| == 2 && IsTimeInfo(g[0]) && RunOf(g[1], IsWordLocChar)
  }

  /** The groups of one match of each form, as `re.findall` returns them: the weekday, then the rest. */
  ghost predicate GroupsOf(f: Form, g: seq<string>)
  {
    |g| >= 1 && |g[0]| == 1 && IsWeekdayChar(g[0][0]) && RestOf(f, g[1..])
  }

  /** A non-empty greedy run of class `p` from `i`, as a slice of `t`. */
  lemma SpanRun(t: string, i: nat, p: char -> bool)
    requires i <= |t| && i < Span(t, i, p)
    ensures RunOf(t[i..Span(t, i, p)], p)
  {
    var j := Span(t, i, p);
    forall k | 0 <= k < j - i ensures p(t[i..j][k]) {
      assert t[i..j][k] == t[i + k];
    }
  }

  /**
   * The end of `(?:\.\d+/\d+)?` read from `j`: past the group when it is
   * there, `j` itself when it is not.
   */
  function FractionEnd(t: string, j: nat): (e: nat)
    requires j <= |t|
    ensures j <= e <= |t|
    ensures e > j ==> t[j] == '.'
  {
    if j < |t| && t[j] == '.' then
      var k := Span(t, j + 1, IsDigit);
      if j + 1 < k < |t| && t[k] == '/' then
        var m := Span(t, k + 1, IsDigit);
        if k + 1 < m then m else j
      else j
    else j
  }

  /** The digits read from `w` and the fraction after them form a time token. */
  lemma TimeInfoSlice(t: string, w: nat, d: nat)
    requires w <= |t| && w < d == Span(t, w, IsDigit)
    ensures IsTimeInfo(t[w..FractionEnd(t, d)])
  {
    var x := FractionEnd(t, d);
    SpanRun(t, w, IsDigit);
    if x > d {
      var k := Span(t, d + 1, IsDigit);
      assert d + 1 < k < x && t[k] == '/' && x == Span(t, k + 1, IsDigit);
      SpanRun(t, d + 1, IsDigit);
      SpanRun(t, k + 1, IsDigit);
      FractionSlices(t, w, d, k, x);
    } else {
      assert RunOf(t[w..x], IsDigit);
    }
  }

  /** Digits, a dot, digits, a slash and digits, cut out of `t`, form a time token. */
  lemma FractionSlices(t: string, w: nat, d: nat, k: nat, x: nat)
    requires w < d && d + 1 < k && k + 1 < x <= |t| && t[d] == '.' && t[k] == '/'
    requires RunOf(t[w..d], IsDigit) && RunOf(t[d + 1..k], IsDigit) && RunOf(t[k + 1..x], IsDigit)
    ensures IsTimeInfo(t[w..x])
  {
    var s := t[w..x];
    assert s[..d - w] == t[w..d];
    var mid, digits := s[d - w + 1..k - w], t[d + 1..k];
    assert mid == digits by {
      forall q | 0 <= q < |mid| ensures mid[q] == digits[q] {
        assert s[d - w + 1 + q] == t[d + 1 + q];
      }
    }
    assert s[k - w + 1..] == t[k + 1..x];
    TimeInfoWitness(s, d - w, k - w);
  }

  /** A token with a dot at `i` and a slash at `j` between three digit runs is a time token. */
  lemma TimeInfoWitness(s: string, i: nat, j: nat)
    requires 0 < i < j < |s| && s[i] == '.' && s[j] == '/'
    requires RunOf(s[..i], IsDigit) && RunOf(s[i + 1..j], IsDigit) && RunOf(s[j + 1..], IsDigit)
    ensures IsTimeInfo(s)
  {
  }

  /** The weekday and the whitespace after it: the end of `[월화수목금토]\s+` from `i`. */
  function WeekdayLead(t: string, i: nat): (w: Option<nat>)
    requires i <= |t|
    ensures w.Some? ==> i + 1 < w.value <= |t| && IsWeekdayChar(t[i])
  {
    if i == |t| || !IsWeekdayChar(t[i]) then None
    else
      var w := Span(t, i + 1, IsSpace);
      if w == i + 1 then None else Some(w)
  }

  /**
   * `\s+` and then a non-empty greedy run of class `p`, read from `j`: the
   * start and end of the run.
   */
  function SpaceThenRun(t: string, j: nat, p: char -> bool): (r: Option<(nat, nat)>)
    requires j <= |t|
    ensures r.Some? ==> j < r.value.0 < r.value.1 <= |t| && RunOf(t[r.value.0..r.value.1], p)
  {
    var s := Span(t, j, IsSpace);
    if s == j then None
    else
      var e := Span(t, s, p);
      if e == s then None
      else
        SpanRun(t, s, p);
        Some((s, e))
  }

  /** The rest of a range-form match after the weekday lead, from `w`: `(\d{2}:\d{2})-(\d{2}:\d{2})\s+([\w\-가-힣\d]+)`. */
  function MatchRange(t: string, w: nat): (r: Option<(seq<string>, nat)>)
    requires w <= |t|
    ensures r.Some? ==> w < r.value.1 <= |t| && RestOf(RangeForm, r.value.0)
  {
    if ClockAt(t, w) && w + 5 < |t| && t[w + 5] == '-' && ClockAt(t, w + 6) then
      match SpaceThenRun(t, w + 11, IsWordLocChar)
      case None => None
      case Some((s, e)) =>
        ClockSlice(t, w);
        ClockSlice(t, w + 6);
        Some(([t[w..w + 5], t[w + 6..w + 11], t[s..e]], e))
    else None
  }

  /** The rest of a minutes-form match after the weekday lead, from `w`: `(\d{2}:\d{2})\((\d+)\)\s+([가-힣A-Za-z0-9\-]+)`. */
  function MatchMinutes(t: string, w: nat): (r: Option<(seq<string>, nat)>)
    requires w <= |t|
    ensures r.Some? ==> w < r.value.1 <= |t| && RestOf(MinuteForm, r.value.0)
  {
    if ClockAt(t, w) && w + 5 < |t| && t[w + 5] == '(' then
      var d := Span(t, w + 6, IsDigit);
      if d > w + 6 && d < |t| && t[d] == ')' then
        match SpaceThenRun(t, d + 1, IsPlainLocChar)
        case None => None
        case Some((s, e)) =>
          SpanRun(t, w + 6, IsDigit);
          ClockSlice(t, w);
          Some(([t[w..w + 5], t[w + 6..d], t[s..e]], e))
      else None
    else None
  }

  /** The rest of a raw-form match after the weekday lead, from `w`: `(\d+(?:\.\d+/\d+)?)\s+([\w\-가-힣\d]+)`. */
  function MatchRaw(t: string, w: nat): (r: Option<(seq<string>, nat)>)
    requires w <= |t|
    ensures r.Some? ==> w < r.value.1 <= |t| && RestOf(RawForm, r.value.0)
  {
    var d := Span(t, w, IsDigit);
    if d > w then
      var x := FractionEnd(t, d);
      match SpaceThenRun(t, x, IsWordLocChar)
      case None => None
      case Some((s, e)) =>
        TimeInfoSlice(t, w, d);
        Some(([t[w..x], t[s..e]], e))
    else None
  }

  /** The groups and end of a match of form `f` that starts at `i`, if one does. */
  function MatchAt(f: Form, t: string, i: nat): (r: Option<(seq<string>, nat)>)
    requires i <= |t|
    ensures r.Some? ==> i < r.value.1 <= |t| && GroupsOf(f, r.value.0)
  {
    match WeekdayLead(t, i)
    case None => None
    case Some(w) =>
      var rest := match f
        case RangeForm => MatchRange(t, w)
        case MinuteForm => MatchMinutes(t, w)
        case CyberForm => if w + 5 <= |t| && t[w..w + 5] == "사이버수업" then Some(([], w + 5)) else None
        case RawForm => MatchRaw(t, w);
      match rest
      case None => None
      case Some((g, e)) =>
        assert ([[t[i]]] + g)[1..] == g;
        Some(([[t[i]]] + g, e))
  }

  /** `re.findall(pattern, t[i:])`: a match is taken where one starts, and the scan resumes after it. */
  function FindAll(f: Form, t: string, i: nat): (r: seq<seq<string>>)
    requires i <= |t|
    ensures forall k :: 0 <= k < |r| ==> GroupsOf(f, r[k])
    decreases |t| - i
  {
    if i == |t| then []
    else
      match MatchAt(f, t, i)
      case Some((g, e)) => [g] + FindAll(f, t, e)
      case None => FindAll(f, t, i + 1)
  }

  /** `int(x.split(":")[0]) * 60 + int(x.split(":")[1])` for a "dd:dd" token. */
  function ClockMinutes(x: string): nat
    requires IsClock(x)
  {
    DigitsValue(x[..2]) * 60 + DigitsValue(x[3..])
  }

  function RangeBlock(g: seq<string>): Block
    requires GroupsOf(RangeForm, g)
  {
    Block(g[0], Some(g[1]), Some(g[2]), Some(ClockMinutes(g[2]) - ClockMinutes(g[1])), g[3])
  }

  /** A minutes-form block; `None` is the error `calc_end_time` raises. */
  function MinuteBlock(g: seq<string>): Option<Block>
    requires GroupsOf(MinuteForm, g)
  {
    var minutes := DigitsValue(g[2]);
    match CalcEndTime(g[1], minutes)
    case None => None
    case Some(end) => Some(Block(g[0], Some(g[1]), Some(end), Some(minutes), g[3]))
  }

  /**
   * A range block keeps both tokens, and when both are valid times its
   * duration is the end minus the start (negative for a range that runs
   * backwards; nothing wraps).
   */
  lemma RangeBlockMeaning(g: seq<string>)
    requires GroupsOf(RangeForm, g)
    ensures var b := RangeBlock(g);
      b.weekday == g[0] && b.startTime == Some(g[1]) && b.endTime == Some(g[2]) && b.location == g[3]
    ensures ParseHM(g[1]).Some? && ParseHM(g[2]).Some? ==>
      RangeBlock(g).duration == Some(ParseHM(g[2]).value - ParseHM(g[1]).value)
  {
    ClockParse(g[1]);
    ClockParse(g[2]);
  }

  /** A "dd:dd" token that `strptime` accepts names the minute its digits say. */
  lemma ClockParse(x: string)
    requires IsClock(x)
    ensures ParseHM(x).Some? ==> ParseHM(x).value == ClockMinutes(x)
  {
    assert !IsDigit(':');
  }

  /**
   * A minutes block exists exactly when `calc_end_time` accepts its start
   * and length; it keeps the start token and the length, and its end time
   * reads back as the start moved forward by the length, modulo one day.
   */
  lemma MinuteBlockMeaning(g: seq<string>)
    requires GroupsOf(MinuteForm, g)
    ensures MinuteBlock(g).Some? <==> ParseHM(g[1]).Some? && InDatetimeRange(ParseHM(g[1]).value, DigitsValue(g[2]))
    ensures MinuteBlock(g).Some? ==>
      var b := MinuteBlock(g).value;
      b.weekday == g[0] && b.startTime == Some(g[1]) && b.duration == Some(DigitsValue(g[2])) && b.location == g[3]
      && b.endTime.Some? && ParseHM(b.endTime.value) == Some((ParseHM(g[1]).value + DigitsValue(g[2])) % 1440)
  {
    CalcEndTimeMeaning(g[1], DigitsValue(g[2]));
  }

  /** A cyber block has no times and the online location; a raw block keeps the time token as its start. */
  lemma CyberRawMeaning(g: seq<string>, h: seq<string>)
    requires GroupsOf(CyberForm, g) && GroupsOf(RawForm, h)
    ensures CyberBlock(g) == Block(g[0], None, None, None, "사이버수업")
    ensures RawBlock(h).startTime == Some(h[1]) && IsTimeInfo(h[1])
    ensures RawBlock(h).endTime.None? && RawBlock(h).duration.None? && RawBlock(h).location == h[2]
  {
  }

  function CyberBlock(g: seq<string>): Block
    requires GroupsOf(CyberForm, g)
  {
    Block(g[0], None, None, None, "사이버수업")
  }

  function RawBlock(g: seq<string>): Block
    requires GroupsOf(RawForm, g)
  {
    Block(g[0], Some(g[1]), None, None, g[2])
  }

  /** The blocks of a list of matches of one form, in match order; `None` when a minutes block fails. */
  function Blocks(f: Form, gs: seq<seq<string>>): (r: Option<seq<Block>>)
    requires forall k :: 0 <= k < |gs| ==> GroupsOf(f, gs[k])
    ensures f != MinuteForm ==> r.Some?
    ensures r.Some? ==> |r.value| == |gs| && forall k :: 0 <= k < |gs| ==> [r.value[k].weekday] <= gs[k]
    decreases |gs|
  {
    if gs == [] then Some([])
    else
      var g := gs[|gs| - 1];
      match Blocks(f, gs[..|gs| - 1])
      case None => None
      case Some(front) =>
        match f
        case RangeForm => Some(front + [RangeBlock(g)])
        case MinuteForm => if MinuteBlock(g).Some? then Some(front + [MinuteBlock(g).value]) else None
        case CyberForm => Some(front + [CyberBlock(g)])
        case RawForm => Some(front + [RawBlock(g)])
  }

  /** Every weekday a parser returns is one of the six class characters. */
  predicate WeekdaysOk(bs: seq<Block>)
  {
    forall k :: 0 <= k < |bs| ==> |bs[k].weekday| == 1 && IsWeekdayChar(bs[k].weekday[0])
  }

  /**
   * `parsed_blocks` for one time cell: the range blocks, then the minutes
   * blocks, then the cyber blocks, then the raw blocks.
   */
  function CellBlocks(text: string): (r: Option<seq<Block>>)
    ensures r.Some? ==> WeekdaysOk(r.value)
  {
    var ranges := FindAll(RangeForm, text, 0);
    var minutes := FindAll(MinuteForm, text, 0);
    var cybers := FindAll(CyberForm, text, 0);
    var raws := FindAll(RawForm, text, 0);
    match Blocks(MinuteForm, minutes)
    case None => None
    case Some(m) =>
      var r := Blocks(RangeForm, ranges).value + m + Blocks(CyberForm, cybers).value + Blocks(RawForm, raws).value;
      assert WeekdaysOk(r) by {
        var a, b, c := |ranges|, |minutes|, |cybers|;
        forall k | 0 <= k < |r| ensures |r[k].weekday| == 1 && IsWeekdayChar(r[k].weekday[0]) {
          if k < a { assert r[k].weekday == ranges[k][0]; }
          else if k < a + b { assert r[k].weekday == minutes[k - a][0]; }
          else if k < a + b + c { assert r[k].weekday == cybers[k - a - b][0]; }
          else { assert r[k].weekday == raws[k - a - b - c][0]; }
        }
      }
      Some(r)
  }

  /** The length of `\d{3}(?:\.\d+/\d+)?` at the start of `s`, if it matches there. */
  function SectionPrefix(s: string): (n: Option<nat>)
    ensures n.Some? ==> 3 <= n.value <= |s| && AllDigits(s[..3])
    ensures n.Some? <==> |s| >= 3 && AllDigits(s[..3])
    ensures n.Some? && n.value > 3 ==> s[3] == '.'
  {
    if |s| >= 3 && IsDigit(s[0]) && IsDigit(s[1]) && IsDigit(s[2]) then Some(FractionEnd(s, 3)) else None
  }

  /** The section a row names: its leading section number, or the whole stripped cell. */
  function NormaliseSection(raw: string): (r: string)
    ensures |raw| >= 3 && AllDigits(raw[..3]) ==> 3 <= |r| <= |raw| && r == raw[..|r|] && (|r| == 3 || (|r| > 3 && r[3] == '.'))
    ensures !(|raw| >= 3 && AllDigits(raw[..3])) ==> r == Strip(raw)
  {
    match SectionPrefix(raw)
    case Some(n) => raw[..n]
    case None => Strip(raw)
  }

  /** Whether a row is one of the wanted course section: twelve cells or more, code and section equal. */
  predicate RowWanted(row: seq<string>, courseCode: string, sectionNumber: string)
  {
    |row| >= 12 && Strip(row[7]) == Strip(courseCode) && NormaliseSection(row[8]) == Strip(sectionNumber)
  }

  /** What one row adds to the result. */
  function RowBlocks(row: seq<string>, courseCode: string, sectionNumber: string): (r: Option<seq<Block>>)
    ensures !RowWanted(row, courseCode, sectionNumber) ==> r == Some([])
    ensures r.Some? ==> WeekdaysOk(r.value)
  {
    if RowWanted(row, courseCode, sectionNumber) then CellBlocks(row[11]) else Some([])
  }

  /** The blocks of several rows, one after the other; `None` when any row raised. */
  function Concat(parts: seq<Option<seq<Block>>>): Option<seq<Block>>
    decreases |parts|
  {
    if parts == [] then Some([])
    else
      var front := Concat(parts[..|parts| - 1]);
      var last := parts[|parts| - 1];
      if front.Some? && last.Some? then Some(front.value + last.value) else None
  }

  /** The per-row results, in row order. */
  function RowResults(rows: seq<seq<string>>, courseCode: string, sectionNumber: string): (r: seq<Option<seq<Block>>>)
    ensures |r| == |rows| && forall k :: 0 <= k < |rows| ==> r[k] == RowBlocks(rows[k], courseCode, sectionNumber)
  {
    MapRows(rows, RowParser(courseCode, sectionNumber))
  }

  function RowParser(courseCode: string, sectionNumber: string): seq<string> -> Option<seq<Block>>
  {
    row => RowBlocks(row, courseCode, sectionNumber)
  }

  /** `parse` applied to each row in turn. */
  function MapRows(rows: seq<seq<string>>, parse: seq<string> -> Option<seq<Block>>): (r: seq<Option<seq<Block>>>)
    ensures |r| == |rows| && forall k :: 0 <= k < |rows| ==> r[k] == parse(rows[k])
  {
    seq(|rows|, k requires 0 <= k < |rows| => parse(rows[k]))
  }

  lemma MapRowsAppend(a: seq<seq<string>>, b: seq<seq<string>>, parse: seq<string> -> Option<seq<Block>>)
    ensures MapRows(a + b, parse) == MapRows(a, parse) + MapRows(b, parse)
  {
    var all, ra, rb := MapRows(a + b, parse), MapRows(a, parse), MapRows(b, parse);
    forall k | 0 <= k < |all| ensures all[k] == (ra + rb)[k] {
      if k < |a| { assert (a + b)[k] == a[k]; } else { assert (a + b)[k] == b[k - |a|]; }
    }
  }

  /**
   * `parse_schedule` over the rows, as the specification of the loop: the
   * blocks of each row in row order; `None` when a row raises.
   */
  function ParseRows(rows: seq<seq<string>>, courseCode: string, sectionNumber: string): Option<seq<Block>>
  {
    Concat(RowResults(rows, courseCode, sectionNumber))
  }

  /** Concatenating two lists of results concatenates their blocks. */
  lemma {:induction false} ConcatAppend(p: seq<Option<seq<Block>>>, q: seq<Option<seq<Block>>>)
    ensures Concat(p + q) ==
      if Concat(p).Some? && Concat(q).Some? then Some(Concat(p).value + Concat(q).value) else None
    decreases |q|
  {
    if q == [] {
      assert p + q == p;
      if Concat(p).Some? { assert Concat(p).value + [] == Concat(p).value; }
    } else {
      var q' := q[..|q| - 1];
      assert (p + q)[..|p + q| - 1] == p + q';
      assert (p + q)[|p + q| - 1] == q[|q| - 1];
      ConcatAppend(p, q');
      if Concat(p).Some? && Concat(q').Some? && q[|q| - 1].Some? {
        var A, B, X := Concat(p).value, Concat(q').value, q[|q| - 1].value;
        assert A + (B + X) == (A + B) + X;
      }
    }
  }

  /** The concatenation of results whose weekdays are all class characters has only such weekdays. */
  lemma {:induction false} ConcatWeekdays(parts: seq<Option<seq<Block>>>)
    requires forall k :: 0 <= k < |parts| && parts[k].Some? ==> WeekdaysOk(parts[k].value)
    ensures Concat(parts).Some? ==> WeekdaysOk(Concat(parts).value)
    decreases |parts|
  {
    if parts != [] {
      var front := parts[..|parts| - 1];
      assert forall k :: 0 <= k < |front| ==> front[k] == parts[k];
      ConcatWeekdays(front);
      if Concat(parts).Some? {
        var a: seq<Block> := Concat(front).value;
        var b: seq<Block> := parts[|parts| - 1].value;
        var ab := a + b;
        forall k | 0 <= k < |ab|
          ensures |ab[k].weekday| == 1 && IsWeekdayChar(ab[k].weekday[0])
        {
          if k >= |a| { assert ab[k] == b[k - |a|]; } else { assert ab[k] == a[k]; }
        }
      }
    }
  }

  /** Every block `parse_schedule` returns carries one of the six weekday characters 월화수목금토. */
  lemma ParseRowsWeekdays(rows: seq<seq<string>>, code: string, section: string)
    ensures ParseRows(rows, code, section).Some? ==> WeekdaysOk(ParseRows(rows, code, section).value)
  {
    ConcatWeekdays(RowResults(rows, code, section));
  }

  /** The results of two lists of rows, one after the other. */
  lemma RowResultsAppend(a: seq<seq<string>>, b: seq<seq<string>>, code: string, section: string)
    ensures RowResults(a + b, code, section) == RowResults(a, code, section) + RowResults(b, code, section)
  {
    MapRowsAppend(a, b, RowParser(code, section));
  }

  /** One more row: its blocks are added after those of the rows before it. */
  lemma ParseRowsStep(rows: seq<seq<string>>, i: nat, code: string, section: string)
    requires i < |rows|
    ensures ParseRows(rows[..i + 1], code, section) ==
      if ParseRows(rows[..i], code, section).Some? && RowBlocks(rows[i], code, section).Some? then
        Some(ParseRows(rows[..i], code, section).value + RowBlocks(rows[i], code, section).value)
      else None
  {
    assert rows[..i + 1] == rows[..i] + [rows[i]];
    RowResultsAppend(rows[..i], [rows[i]], code, section);
    ConcatAppend(RowResults(rows[..i], code, section), RowResults([rows[i]], code, section));
    assert Concat(RowResults([rows[i]], code, section)) == RowBlocks(rows[i], code, section) by {
      var one := RowResults([rows[i]], code, section);
      assert one[..0] == [];
      if one[0].Some? { assert [] + one[0].value == one[0].value; }
    }
  }

  /** The row loop of `parse_schedule`: the rows are read in order and each adds its blocks. */
  method ParseSchedule(rows: seq<seq<string>>, courseCode: string, sectionNumber: string)
    returns (r: Option<seq<Block>>)
    ensures r == ParseRows(rows, courseCode, sectionNumber)
  {
    var results: seq<Block> := [];
    var i := 0;
    while i < |rows|
      invariant 0 <= i <= |rows|
      invariant ParseRows(rows[..i], courseCode, sectionNumber) == Some(results)
    {
      var blocks := RowBlocks(rows[i], courseCode, sectionNumber);
      ParseRowsStep(rows, i, courseCode, sectionNumber);
      if blocks.None? {
        NoneStays(rows, i + 1, courseCode, sectionNumber);
        return None;
      }
      results := results + blocks.value;
      i := i + 1;
    }
    assert rows[..i] == rows;
    r := Some(results);
  }

  /** Once a prefix of the rows raises, the whole list does. */
  lemma {:induction false} NoneStays(rows: seq<seq<string>>, i: nat, code: string, section: string)
    requires i <= |rows| && ParseRows(rows[..i], code, section).None?
    ensures ParseRows(rows, code, section).None?
    decreases |rows| - i
  {
    if i == |rows| {
      assert rows[..i] == rows;
    } else {
      ParseRowsStep(rows, i, code, section);
      NoneStays(rows, i + 1, code, section);
    }
  }

  /** The result of a list of rows is the result of its first part followed by that of the rest. */
  lemma ParseRowsAppend(a: seq<seq<string>>, b: seq<seq<string>>, code: string, section: string)
    ensures ParseRows(a + b, code, section) ==
      if ParseRows(a, code, section).Some? && ParseRows(b, code, section).Some? then
        Some(ParseRows(a, code, section).value + ParseRows(b, code, section).value)
      else None
  {
    RowResultsAppend(a, b, code, section);
    ConcatAppend(RowResults(a, code, section), RowResults(b, code, section));
  }

  /** A row that is not wanted (fewer than twelve cells, another course or section) adds nothing. */
  lemma UnwantedRowAddsNothing(rows: seq<seq<string>>, row: seq<string>, code: string, section: string)
    requires !RowWanted(row, code, section)
    ensures ParseRows(rows + [row], code, section) == ParseRows(rows, code, section)
  {
    ParseRowsStep(rows + [row], |rows|, code, section);
    assert (rows + [row])[..|rows|] == rows;
    assert (rows + [row])[..|rows| + 1] == rows + [row];
    if ParseRows(rows, code, section).Some? {
      assert ParseRows(rows, code, section).value + [] == ParseRows(rows, code, section).value;
    }
  }

  /**
   * A wanted row adds the blocks of its time cell: ranges, then minutes,
   * then cyber slots, then raw slots, all of the same length as the matches.
   */
  lemma WantedRowBlocks(row: seq<string>, code: string, section: string)
    requires RowWanted(row, code, section)
    ensures RowBlocks(row, code, section).Some? <==> Blocks(MinuteForm, FindAll(MinuteForm, row[11], 0)).Some?
    ensures RowBlocks(row, code, section).Some? ==>
      RowBlocks(row, code, section).value ==
        Blocks(RangeForm, FindAll(RangeForm, row[11], 0)).value
        + Blocks(MinuteForm, FindAll(MinuteForm, row[11], 0)).value
        + Blocks(CyberForm, FindAll(CyberForm, row[11], 0)).value
        + Blocks(RawForm, FindAll(RawForm, row[11], 0)).value
  {
  }
}
