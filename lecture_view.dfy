/**
 * The lecture records the client receives from the lecture and
 * attendance endpoints, as far as the pages read them; every field may be
 * missing.
 */
module LectureView {
  import opened Common

  /** `location_details` of a schedule. */
  datatype Details = Details(buildingName: Option<string>, buildingCode: Option<string>, roomNumber: Option<string>)

  /** One schedule block of a lecture. */
  datatype Schedule = Schedule(weekday: string, start: string, end: string,
                               location: Option<string>, details: Option<Details>)

  /** One lecture as listed to the client. */
  datatype Lecture = Lecture(lectureId: int, lectureName: Option<string>, name: Option<string>,
                             code: Option<string>, platoCourseId: Option<string>,
                             schedules: Option<seq<Schedule>>)

  /** `Array.isArray(lec.schedules) && lec.schedules.length > 0`. */
  predicate HasSchedules(l: Lecture)
  {
    l.schedules.Some? && |l.schedules.value| > 0
  }
}
