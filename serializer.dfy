/**
 * The JSON shape of a lecture schedule sent to the client: the weekday as a
 * Korean label, both times as "HH:MM", the length in minutes across
 * midnight, the raw location text and the linked location's fields.
 */
module Serializer {
  import opened Common
  import opened TimeOfDay
  import opened Models

  /** Monday to Sunday. */
  const Weekdays: seq<string> := ["월", "화", "수", "목", "금", "토", "일"]

  /** The three fields of the linked location. */
  datatype LocationDetails = LocationDetails(
    buildingName: Option<string>, buildingCode: Option<string>, roomNumber: Option<string>)

  datatype SerializedSchedule = SerializedSchedule(
    weekday: string, start: string, end: string, duration: int,
    location: Option<string>, details: Option<LocationDetails>)

  /** Python's `xs[i]` on a list of length `n`: a negative index counts from the end; `None` is IndexError. */
  function PyIndex(i: int, n: nat): (r: Option<nat>)
    ensures r.Some? <==> -(n as int) <= i < n
    ensures r.Some? ==> r.value < n && (if i < 0 then r.value == i + n else r.value == i)
  {
    if 0 <= i < n then Some(i) else if -(n as int) <= i < 0 then Some(i + n) else None
  }

  /** `WEEKDAYS[w]`. */
  function WeekdayLabel(w: int): Option<string>
  {
    match PyIndex(w, |Weekdays|)
    case Some(k) => Some(Weekdays[k])
    case None => None
  }

  /**
   * The whole minutes from `start` to `end` as `(end - start).seconds // 60`
   * gives them: `timedelta.seconds` is the non-negative part below one day.
   */
  function WrappedMinutes(start: Minute, end: Minute): (d: int)
    ensures 0 <= d < 1440 && (start + d) % 1440 == end
    ensures start <= end ==> d == end - start
  {
    (end - start) % 1440
  }

  /**
   * `serialize_schedule(sched)`, with the linked location passed as
   * `details`; `None` stands for the IndexError of a weekday outside -7..6.
   */
  function SerializeSchedule(s: Schedule, details: Option<Location>): Option<SerializedSchedule>
  {
    match WeekdayLabel(s.weekday)
    case None => None
    case Some(day) =>
      var d := if details.Some? then
        Some(LocationDetails(details.value.buildingName, details.value.buildingCode, details.value.roomNumber))
      else None;
      Some(SerializedSchedule(day, FormatHM(s.start), FormatHM(s.end), WrappedMinutes(s.start, s.end), s.location, d))
  }

  /**
   * What the serialised schedule says: it exists for a weekday Python can
   * index with, the label of 0..6 is Monday..Sunday, both times read back as
   * the schedule's times, the duration is the length modulo one day, and the
   * details are present exactly when a location is linked.
   */
  lemma SerializeMeaning(s: Schedule, details: Option<Location>)
    ensures SerializeSchedule(s, details).Some? <==> -7 <= s.weekday < 7
    ensures 0 <= s.weekday < 7 ==> SerializeSchedule(s, details).value.weekday == Weekdays[s.weekday]
    ensures SerializeSchedule(s, details).Some? ==>
      var r := SerializeSchedule(s, details).value;
      ParseHM(r.start) == Some(s.start) && ParseHM(r.end) == Some(s.end)
      && 0 <= r.duration < 1440 && (s.start + r.duration) % 1440 == s.end
      && r.location == s.location
      && (r.details.None? <==> details.None?)
      && (details.Some? ==>
            r.details.value == LocationDetails(
              details.value.buildingName, details.value.buildingCode, details.value.roomNumber))
  {
    if SerializeSchedule(s, details).Some? {
      var r := SerializeSchedule(s, details).value;
      assert r.start == FormatHM(s.start) && r.end == FormatHM(s.end);
      ParseFormat(s.start);
      ParseFormat(s.end);
    }
  }

  /** Distinct weekdays get distinct labels, and each label is a single character. */
  lemma WeekdayLabelsDistinct(v: int, w: int)
    requires 0 <= v < 7 && 0 <= w < 7
    ensures WeekdayLabel(v).Some? && |WeekdayLabel(v).value| == 1
    ensures WeekdayLabel(v) == WeekdayLabel(w) <==> v == w
  {
  }
}
